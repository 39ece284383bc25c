/** The bitwise CRC of the ZIP fixture writer (src/test-utils/moext.ts). */
module Crc32 {

  type Octet = bv8

  /** A reflected 32-bit CRC: its polynomial and the turns of the register per input symbol. */
  datatype Crc = Crc(polynomial: bv32, turns: nat)

  const POLYNOMIAL: bv32 := 0xedb8_8320
  const ALL_ONES: bv32 := 0xffff_ffff
  const ZIP_CRC: Crc := Crc(POLYNOMIAL, 8)

  predicate FullDegree(p: Crc) {
    p.polynomial >= 0x8000_0000
  }

  /** The polynomial has full degree and symbols are bytes. */
  predicate OverBytes(p: Crc) {
    FullDegree(p) && p.turns == 8
  }

  /** One turn of the inner loop: `-(c & 1)` is all ones exactly when the low bit is set. */
  function Step(p: Crc, c: bv32): bv32 {
    (c >> 1) ^ (if c & 1 == 1 then p.polynomial else 0)
  }

  function Steps(p: Crc, c: bv32, n: nat): bv32 {
    if n == 0 then c else Step(p, Steps(p, c, n - 1))
  }

  /** The register after one byte. */
  function Feed(p: Crc, c: bv32, b: Octet): bv32 {
    Steps(p, c ^ (b as bv32), p.turns)
  }

  /** The register update for one byte, as a function value. */
  type Update = (bv32, Octet) -> bv32

  function Feeder(p: Crc): Update {
    (c, b) => Feed(p, c, b)
  }

  const ZIP_FEED: Update := Feeder(ZIP_CRC)

  /** The register after a whole buffer, started from `c`. */
  function State(f: Update, c: bv32, buf: seq<Octet>): bv32
    decreases buf
  {
    if buf == [] then c else f(State(f, c, buf[..|buf| - 1]), buf[|buf| - 1])
  }

  /** The value the program stores: the register starts at zero. */
  function Checksum(buf: seq<Octet>): bv32 {
    State(ZIP_FEED, 0, buf) ^ ALL_ONES
  }

  /** The CRC-32 of RFC 1952, section 8: the register starts at all ones. */
  function StandardCrc32(buf: seq<Octet>): bv32 {
    State(ZIP_FEED, ALL_ONES, buf) ^ ALL_ONES
  }

  lemma OneTurn(p: Crc, c: bv32, k: nat)
    ensures Steps(p, c, k + 1) == Step(p, Steps(p, c, k))
  {
  }

  lemma FeedIs(p: Crc, c: bv32, b: Octet, wide: bv32)
    requires wide == b as bv32
    ensures Feed(p, c, b) == Steps(p, c ^ wide, p.turns)
  {
  }

  lemma OneByte(p: Crc, c: bv32, b: Octet, wide: bv32, d: bv32)
    requires wide == b as bv32 && d == Steps(p, c ^ wide, p.turns)
    ensures d == Feeder(p)(c, b)
  {
    FeedIs(p, c, b, wide);
  }

  lemma StateStep(f: Update, c: bv32, buf: seq<Octet>, i: nat)
    requires i < |buf|
    ensures State(f, c, buf[..i + 1]) == f(State(f, c, buf[..i]), buf[i])
  {
    assert buf[..i + 1][..i] == buf[..i];
  }

  /** The two nested loops, for any polynomial. */
  method Register(p: Crc, buf: seq<Octet>) returns (c: bv32)
    requires p.turns == 8
    ensures c == State(Feeder(p), 0, buf)
  {
    c := 0;
    for i := 0 to |buf|
      invariant c == State(Feeder(p), 0, buf[..i])
    {
      var wide := buf[i] as bv32;
      c := c ^ wide;
      ghost var mixed := c;
      for k := 0 to 8
        invariant c == Steps(p, mixed, k)
      {
        OneTurn(p, mixed, k);
        c := (c >> 1) ^ (if c & 1 == 1 then p.polynomial else 0);
      }
      OneByte(p, State(Feeder(p), 0, buf[..i]), buf[i], wide, c);
      StateStep(Feeder(p), 0, buf, i);
    }
    assert buf[..|buf|] == buf;
  }

  method Compute(buf: seq<Octet>) returns (crc: bv32)
    ensures crc == Checksum(buf)
  {
    var c := Register(ZIP_CRC, buf);
    crc := c ^ ALL_ONES;
  }

  // ---------------------------------------------------------------- the register map is injective

  /** The shift-xor step loses no information: its top bit tells which branch was taken. */
  lemma StepInjective(p: Crc, a: bv32, b: bv32)
    requires FullDegree(p)
    requires Step(p, a) == Step(p, b)
    ensures a == b
  {
  }

  lemma {:induction false} StepsInjective(p: Crc, a: bv32, b: bv32, n: nat)
    requires FullDegree(p)
    requires Steps(p, a, n) == Steps(p, b, n)
    ensures a == b
    decreases n
  {
    if n > 0 {
      StepInjective(p, Steps(p, a, n - 1), Steps(p, b, n - 1));
      StepsInjective(p, a, b, n - 1);
    }
  }

  lemma XorCancels(a: bv32, b: bv32, x: bv32)
    requires a ^ x == b ^ x
    ensures a == b
  {
    assert (a ^ x) ^ x == a;
    assert (b ^ x) ^ x == b;
  }

  lemma LastFeed(p: Crc, u: bv32, v: bv32, x: Octet, y: Octet, wideX: bv32, wideY: bv32)
    requires FullDegree(p) && wideX == x as bv32 && wideY == y as bv32
    requires Feed(p, u, x) == Feed(p, v, y)
    ensures u ^ wideX == v ^ wideY
  {
    FeedIs(p, u, x, wideX);
    FeedIs(p, v, y, wideY);
    StepsInjective(p, u ^ wideX, v ^ wideY, p.turns);
  }

  // ---------------------------------------------------------------- bursts

  /** The registers `u` and `v` differ at most in the bits of `mask`. */
  predicate Within(u: bv32, v: bv32, mask: bv32) {
    (u ^ v) & !mask == 0
  }

  function Shifted(mask: bv32, n: nat): bv32
    decreases n
  {
    if n == 0 then mask else Shifted(mask << 1, n - 1)
  }

  /** Moving `mask` to the left `n` times never drops a set bit. */
  predicate Fits(mask: bv32, n: nat)
    decreases n
  {
    n == 0 || (mask < 0x8000_0000 && Fits(mask << 1, n - 1))
  }

  /** Registers of different parity differ in the top bit after a step. */
  lemma StepParity(p: Crc, u: bv32, v: bv32, mask: bv32)
    requires OverBytes(p) && mask < 0x8000_0000
    requires Within(Step(p, u), Step(p, v), mask)
    ensures u & 1 == v & 1
  {
  }

  lemma StepDifference(p: Crc, u: bv32, v: bv32)
    requires u & 1 == v & 1
    ensures Step(p, u) ^ Step(p, v) == (u >> 1) ^ (v >> 1)
  {
    XorShared(u >> 1, v >> 1, if u & 1 == 1 then p.polynomial else 0);
  }

  lemma XorShared(a: bv32, b: bv32, x: bv32)
    ensures (a ^ x) ^ (b ^ x) == a ^ b
  {
  }

  lemma HalvesBack(u: bv32, v: bv32, mask: bv32)
    requires mask < 0x8000_0000
    requires u & 1 == v & 1
    requires ((u >> 1) ^ (v >> 1)) & !mask == 0
    ensures Within(u, v, mask << 1)
  {
  }

  /** A difference confined to `mask` after a step was confined to the shifted mask before it. */
  lemma StepBack(p: Crc, u: bv32, v: bv32, mask: bv32)
    requires OverBytes(p) && mask < 0x8000_0000
    requires Within(Step(p, u), Step(p, v), mask)
    ensures Within(u, v, mask << 1)
  {
    StepParity(p, u, v, mask);
    StepDifference(p, u, v);
    HalvesBack(u, v, mask);
  }

  lemma {:induction false} StepsBack(p: Crc, u: bv32, v: bv32, mask: bv32, n: nat)
    requires OverBytes(p) && Fits(mask, n)
    requires Within(Steps(p, u, n), Steps(p, v, n), mask)
    ensures Within(u, v, Shifted(mask, n))
    decreases n
  {
    if n > 0 {
      StepBack(p, Steps(p, u, n - 1), Steps(p, v, n - 1), mask);
      StepsBack(p, u, v, mask << 1, n - 1);
    }
  }

  lemma ByteMasks()
    ensures Fits(0xff, 8) && Shifted(0xff, 8) == 0xff00
    ensures Fits(0xffff, 8) && Shifted(0xffff, 8) == 0xff_ff00
    ensures Fits(0xff_ffff, 8) && Shifted(0xff_ffff, 8) == 0xffff_ff00
  {
  }

  /** The byte fed in can only have disturbed the low eight bits. */
  lemma BeforeByte(u: bv32, v: bv32, x: Octet, y: Octet, mask: bv32)
    requires Within(u ^ (x as bv32), v ^ (y as bv32), mask)
    ensures Within(u, v, mask | 0xff)
  {
  }

  /** From equal registers, a difference clear of the low eight bits comes from equal bytes. */
  lemma SameByte(u: bv32, x: Octet, y: Octet, mask: bv32)
    requires mask & 0xff == 0
    requires Within(u ^ (x as bv32), u ^ (y as bv32), mask)
    ensures x == y
  {
  }

  /** One byte earlier: a difference within the low `mask` after a byte was `mask` shifted a byte up before it. */
  lemma FeedBack(p: Crc, u: bv32, v: bv32, x: Octet, y: Octet, mask: bv32)
    requires OverBytes(p) && Fits(mask, 8)
    requires Within(Feed(p, u, x), Feed(p, v, y), mask)
    ensures Within(u ^ (x as bv32), v ^ (y as bv32), Shifted(mask, 8))
  {
    StepsBack(p, u ^ (x as bv32), v ^ (y as bv32), mask, p.turns);
  }

  // ---------------------------------------------------------------- any update with these two laws

  /** Equal registers after a byte were equal once the byte was mixed in. */
  predicate Reversible(f: Update, u: bv32, v: bv32, x: Octet, y: Octet) {
    f(u, x) == f(v, y) ==> u ^ (x as bv32) == v ^ (y as bv32)
  }

  /** A difference within `mask` after a byte was `mask` one byte further up before it. */
  predicate Confined(f: Update, u: bv32, v: bv32, x: Octet, y: Octet, mask: bv32) {
    Fits(mask, 8) && Within(f(u, x), f(v, y), mask)
    ==> Within(u ^ (x as bv32), v ^ (y as bv32), Shifted(mask, 8))
  }

  ghost predicate AllReversible(f: Update) {
    forall u, v, x, y :: Reversible(f, u, v, x, y)
  }

  ghost predicate AllConfined(f: Update) {
    forall u, v, x, y, mask :: Confined(f, u, v, x, y, mask)
  }

  lemma FeederLossless(p: Crc)
    requires OverBytes(p)
    ensures AllReversible(Feeder(p)) && AllConfined(Feeder(p))
  {
    var f := Feeder(p);
    forall u, v, x, y ensures Reversible(f, u, v, x, y) {
      if Feed(p, u, x) == Feed(p, v, y) { LastFeed(p, u, v, x, y, x as bv32, y as bv32); }
    }
    forall u, v, x, y, mask ensures Confined(f, u, v, x, y, mask) {
      if Fits(mask, 8) && Within(Feed(p, u, x), Feed(p, v, y), mask) { FeedBack(p, u, v, x, y, mask); }
    }
  }

  /** Resuming: the register over a concatenation is the second part fed to the register of the first. */
  lemma {:induction false} StateOfConcat(f: Update, c: bv32, a: seq<Octet>, b: seq<Octet>)
    ensures State(f, c, a + b) == State(f, State(f, c, a), b)
    decreases b
  {
    if b == [] {
      assert a + b == a;
    } else {
      StateOfConcat(f, c, a, b[..|b| - 1]);
      assert (a + b)[..|a + b| - 1] == a + b[..|b| - 1];
    }
  }

  lemma MixCancels(f: Update, a: bv32, b: bv32, x: Octet)
    requires Reversible(f, a, b, x, x)
    requires f(a, x) == f(b, x)
    ensures a == b
  {
    XorCancels(a, b, x as bv32);
  }

  lemma UpdateInjective(f: Update, a: bv32, b: bv32, x: Octet)
    requires AllReversible(f)
    requires f(a, x) == f(b, x)
    ensures a == b
  {
    assert Reversible(f, a, b, x, x);
    MixCancels(f, a, b, x);
  }

  /** Over any fixed buffer, different starting registers end in different registers. */
  lemma {:induction false} StateInjective(f: Update, a: bv32, b: bv32, buf: seq<Octet>)
    requires AllReversible(f)
    requires State(f, a, buf) == State(f, b, buf)
    ensures a == b
    decreases buf
  {
    if buf != [] {
      var front := buf[..|buf| - 1];
      UpdateInjective(f, State(f, a, front), State(f, b, front), buf[|buf| - 1]);
      StateInjective(f, a, b, front);
    }
  }

  /** Equal registers after a byte differed at most in the low eight bits before it. */
  lemma LastByte(f: Update, u: bv32, v: bv32, x: Octet, y: Octet)
    requires AllReversible(f)
    requires f(u, x) == f(v, y)
    ensures Within(u, v, 0xff)
    ensures u == v ==> x == y
  {
    assert Reversible(f, u, v, x, y);
    BeforeByte(u, v, x, y, 0);
    if u == v {
      SameByte(u, x, y, 0);
    }
  }

  /** One byte earlier in a window. */
  lemma EarlierByte(f: Update, u: bv32, v: bv32, x: Octet, y: Octet, mask: bv32)
    requires AllConfined(f)
    requires Fits(mask, 8) && Within(f(u, x), f(v, y), mask)
    requires Shifted(mask, 8) & 0xff == 0
    ensures Within(u, v, Shifted(mask, 8) | 0xff)
    ensures u == v ==> x == y
  {
    assert Confined(f, u, v, x, y, mask);
    BeforeByte(u, v, x, y, Shifted(mask, 8));
    if u == v {
      SameByte(u, x, y, Shifted(mask, 8));
    }
  }

  lemma FourFeeds(f: Update, c: bv32, x: seq<Octet>, y: seq<Octet>)
    requires AllReversible(f) && AllConfined(f) && |x| == 4 && |y| == 4
    requires f(f(f(f(c, x[0]), x[1]), x[2]), x[3]) == f(f(f(f(c, y[0]), y[1]), y[2]), y[3])
    ensures x[0] == y[0] && x[1] == y[1] && x[2] == y[2] && x[3] == y[3]
  {
    var u1, v1 := f(c, x[0]), f(c, y[0]);
    var u2, v2 := f(u1, x[1]), f(v1, y[1]);
    var u3, v3 := f(u2, x[2]), f(v2, y[2]);
    ByteMasks();
    LastByte(f, u3, v3, x[3], y[3]);
    EarlierByte(f, u2, v2, x[2], y[2], 0xff);
    EarlierByte(f, u1, v1, x[1], y[1], 0xffff);
    EarlierByte(f, c, c, x[0], y[0], 0xff_ffff);
  }

  lemma StateOfFour(f: Update, c: bv32, w: seq<Octet>)
    requires |w| == 4
    ensures State(f, c, w) == f(f(f(f(c, w[0]), w[1]), w[2]), w[3])
  {
    assert w[..3][..2] == w[..2] && w[..2][..1] == w[..1] && w[..1][..0] == [];
    assert State(f, c, w[..1]) == f(c, w[0]);
    assert State(f, c, w[..2]) == f(State(f, c, w[..1]), w[1]);
    assert State(f, c, w[..3]) == f(State(f, c, w[..2]), w[2]);
  }

  /** From one register, at most four bytes are determined by the register they lead to. */
  lemma ShortWindowInjective(f: Update, c: bv32, x: seq<Octet>, y: seq<Octet>)
    requires AllReversible(f) && AllConfined(f) && |x| == |y| <= 4
    requires State(f, c, x) == State(f, c, y)
    ensures x == y
  {
    var pad := seq(4 - |x|, i => 0 as Octet);
    StateOfConcat(f, c, x, pad);
    StateOfConcat(f, c, y, pad);
    StateOfFour(f, c, x + pad);
    StateOfFour(f, c, y + pad);
    FourFeeds(f, c, x + pad, y + pad);
    forall i | 0 <= i < |x| ensures x[i] == y[i] {
      assert (x + pad)[i] == x[i] && (y + pad)[i] == y[i];
    }
  }

  lemma BurstChangesState(f: Update, c: bv32, before: seq<Octet>, x: seq<Octet>, y: seq<Octet>, after: seq<Octet>)
    requires AllReversible(f) && AllConfined(f) && |x| == |y| <= 4
    requires State(f, c, before + x + after) == State(f, c, before + y + after)
    ensures x == y
  {
    StateOfConcat(f, c, before + x, after);
    StateOfConcat(f, c, before + y, after);
    StateInjective(f, State(f, c, before + x), State(f, c, before + y), after);
    StateOfConcat(f, c, before, x);
    StateOfConcat(f, c, before, y);
    ShortWindowInjective(f, State(f, c, before), x, y);
  }

  // ---------------------------------------------------------------- main results

  /** The stored checksum is never the CRC-32 of RFC 1952, on any buffer at all. */
  lemma NeverTheStandardCrc(buf: seq<Octet>)
    ensures Checksum(buf) != StandardCrc32(buf)
  {
    FeederLossless(ZIP_CRC);
    if Checksum(buf) == StandardCrc32(buf) {
      XorCancels(State(ZIP_FEED, 0, buf), State(ZIP_FEED, ALL_ONES, buf), ALL_ONES);
      StateInjective(ZIP_FEED, 0, ALL_ONES, buf);
      assert false;
    }
  }

  /** Every burst is detected: buffers of one length that differ only inside four consecutive
      bytes never share a checksum. A single differing byte is the special case of one byte. */
  lemma BurstChangesChecksum(a: seq<Octet>, b: seq<Octet>, at: nat)
    requires |a| == |b| && a != b
    requires forall j :: 0 <= j < |a| && !(at <= j < at + 4) ==> a[j] == b[j]
    ensures Checksum(a) != Checksum(b)
  {
    var from := if at < |a| then at else |a|;
    var to := if from + 4 < |a| then from + 4 else |a|;
    var before, after := a[..from], a[to..];
    assert b[..from] == before && b[to..] == after;
    assert a == before + a[from..to] + after;
    assert b == before + b[from..to] + after;
    FeederLossless(ZIP_CRC);
    if Checksum(a) == Checksum(b) {
      XorCancels(State(ZIP_FEED, 0, a), State(ZIP_FEED, 0, b), ALL_ONES);
      BurstChangesState(ZIP_FEED, 0, before, a[from..to], b[from..to], after);
      assert false;
    }
  }
}
