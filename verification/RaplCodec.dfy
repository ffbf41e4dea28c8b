/** MSR_PKG_POWER_LIMIT (0x610): the 64-bit word, its fields, and the fixed-point power unit.

    A word is its unsigned value, and a shift-and-mask is the division and remainder it computes. The two halves of
    the register have the same layout: a 15-bit limit, an enable bit, a clamp bit and a time window; bit 63 is the
    lock. The driver model reasons about decoded fields. The lemmas here show that nothing is lost on the way:
    decoding is injective, and it turns each word operation of the codec into the field operation of that name. */
module RaplCodec {

  const FIELD_MAX := 0x7fff

  type Word = w: nat | w < 0x1_0000_0000_0000_0000

  /** The fields of 0x610; the two windows are the bits no readback compares. */
  datatype PowerLimit = PowerLimit(
    pl1: nat, pl1Enabled: bool, pl1Clamped: bool, window1: nat,
    pl2: nat, pl2Enabled: bool, pl2Clamped: bool, window2: nat,
    locked: bool)
  {
    function WithLimits(raw1: nat, raw2: nat): PowerLimit {
      PowerLimit(raw1, true, true, window1, raw2, true, true, window2, false)
    }

    function Unlocked(): PowerLimit {
      this.(locked := false)
    }

    predicate SameWindows(other: PowerLimit) {
      window1 == other.window1 && window2 == other.window2
    }

    /** Equality under the readback mask. */
    predicate Matches(other: PowerLimit) {
      this.(window1 := other.window1, window2 := other.window2) == other
    }
  }

  function Bit(b: bool): nat { if b then 1 else 0 }

  // ----- One half of the register

  function Limit(half: nat): nat { half % 0x8000 }
  predicate Enabled(half: nat) { half / 0x8000 % 2 == 1 }
  predicate Clamped(half: nat) { half / 0x8000 / 2 % 2 == 1 }
  function Window(half: nat): nat { half / 0x8000 / 4 }

  /** The limit, enable and clamp bits together. */
  function Controls(half: nat): nat { half % 0x2_0000 }

  /** Clear the limit, enable and clamp bits and set them afresh. */
  function WithLimit(half: nat, raw: nat): nat {
    half - Controls(half) + raw + 0x8000 + 0x1_0000
  }

  lemma HalfParts(half: nat)
    ensures Controls(half) == 0x8000 * (2 * Bit(Clamped(half)) + Bit(Enabled(half))) + Limit(half)
    ensures half == 0x2_0000 * Window(half) + Controls(half)
  {
  }

  lemma HalfUnique(half: nat, window: nat, controls: nat)
    requires half == 0x2_0000 * window + controls && controls < 0x2_0000
    ensures Window(half) == window && Controls(half) == controls
  {
  }

  lemma ControlsUnique(a: nat, b: nat)
    ensures Controls(a) == Controls(b) <==> Limit(a) == Limit(b) && Enabled(a) == Enabled(b) && Clamped(a) == Clamped(b)
  {
    HalfParts(a);
    HalfParts(b);
  }

  lemma HalfInjective(a: nat, b: nat)
    requires Limit(a) == Limit(b) && Enabled(a) == Enabled(b) && Clamped(a) == Clamped(b) && Window(a) == Window(b)
    ensures a == b
  {
    HalfParts(a);
    HalfParts(b);
  }

  lemma HalfWithLimit(half: nat, raw: nat)
    requires raw <= FIELD_MAX
    ensures var out := WithLimit(half, raw);
      && Limit(out) == raw && Enabled(out) && Clamped(out) && Window(out) == Window(half)
  {
    var out := WithLimit(half, raw);
    HalfParts(half);
    HalfUnique(out, Window(half), 0x1_8000 + raw);
    HalfParts(out);
  }

  // ----- The whole word

  function Low(word: Word): nat { word % 0x1_0000_0000 }
  function High(word: Word): nat { word / 0x1_0000_0000 % 0x8000_0000 }
  predicate Locked(word: Word) { word / 0x8000_0000_0000_0000 == 1 }

  function Join(low: nat, high: nat, locked: bool): Word
    requires low < 0x1_0000_0000 && high < 0x8000_0000
  {
    low + 0x1_0000_0000 * high + 0x8000_0000_0000_0000 * Bit(locked)
  }

  function Decode(word: Word): PowerLimit {
    var low, high := Low(word), High(word);
    PowerLimit(Limit(low), Enabled(low), Clamped(low), Window(low),
               Limit(high), Enabled(high), Clamped(high), Window(high), Locked(word))
  }

  function WithPowerLimits(word: Word, raw1: nat, raw2: nat): Word
    requires raw1 <= FIELD_MAX && raw2 <= FIELD_MAX
  {
    HalfStays(Low(word), raw1, 0x8000);
    HalfStays(High(word), raw2, 0x4000);
    Join(WithLimit(Low(word), raw1), WithLimit(High(word), raw2), false)
  }

  /** The word under `kLimitReadbackMask`. */
  function Masked(word: Word): Word {
    Join(Controls(Low(word)), Controls(High(word)), Locked(word))
  }

  function ClearLock(word: Word): Word {
    Join(Low(word), High(word), false)
  }

  lemma HalfStays(half: nat, raw: nat, windows: nat)
    requires raw <= FIELD_MAX && half < 0x2_0000 * windows
    ensures WithLimit(half, raw) < 0x2_0000 * windows
  {
    HalfParts(half);
  }

  lemma WordParts(word: Word)
    ensures word == Join(Low(word), High(word), Locked(word))
  {
  }

  lemma WordUnique(low: nat, high: nat, locked: bool)
    requires low < 0x1_0000_0000 && high < 0x8000_0000
    ensures var w := Join(low, high, locked);
      && Low(w) == low && High(w) == high && Locked(w) == locked
  {
  }

  /** Which bits of 0x610 are which field. */
  lemma LimitLayout(word: Word)
    ensures var l := Decode(word);
      && l.pl1 == word % 32768 && l.window1 == word / 0x2_0000 % 32768
      && (l.pl1Enabled <==> word / 0x8000 % 2 == 1)                    // bit 15
      && (l.pl1Clamped <==> word / 0x1_0000 % 2 == 1)                  // bit 16
      && l.pl2 == word / 0x1_0000_0000 % 32768
      && (l.pl2Enabled <==> word / 0x8000_0000_0000 % 2 == 1)          // bit 47
      && (l.pl2Clamped <==> word / 0x1_0000_0000_0000 % 2 == 1)        // bit 48
      && (l.locked <==> word / 0x8000_0000_0000_0000 % 2 == 1)         // bit 63
  {
    var low, high := Low(word), High(word);
    var upper := word / 0x1_0000_0000;
    HalfLayout(word, low, 0x8000 * upper);
    AboveDivides(word / 0x2_0000, Window(low), upper, 0x8000);
    HalfLayout(upper, high, 0x4000 * Bit(Locked(word)));
    assert word / 0x8000_0000_0000 == word / 0x1_0000_0000 / 0x8000;
    assert word / 0x1_0000_0000_0000 == word / 0x1_0000_0000 / 0x1_0000;
  }

  /** What lies above a half changes none of its fields. */
  lemma HalfLayout(word: nat, half: nat, above: nat)
    requires word == half + 0x2_0000 * above
    ensures Limit(half) == word % 0x8000 && word / 0x2_0000 == Window(half) + above
    ensures (Enabled(half) <==> word / 0x8000 % 2 == 1) && (Clamped(half) <==> word / 0x1_0000 % 2 == 1)
  {
    AboveDivides(word, half, 4 * above, 0x8000);
    AboveDivides(word, half, 2 * above, 0x1_0000);
    AboveDivides(word, half, above, 0x2_0000);
    SameParity(word / 0x8000, half / 0x8000, 2 * above);
    SameParity(word / 0x1_0000, half / 0x1_0000, above);
    HalfShifts(half);
  }

  lemma HalfShifts(half: nat)
    ensures half / 0x1_0000 == half / 0x8000 / 2 && half / 0x2_0000 == half / 0x8000 / 4
  {
  }

  lemma SameParity(x: nat, y: nat, k: nat)
    requires x == y + 2 * k
    ensures x % 2 == y % 2
  {
  }

  lemma AboveDivides(word: nat, half: nat, above: nat, d: nat)
    requires d in {0x4000, 0x8000, 0x1_0000, 0x2_0000} && word == half + d * above
    ensures word / d == half / d + above && word % d == half % d
  {
  }

  /** Two words with the same fields are the same word. */
  lemma DecodeInjective(a: Word, b: Word)
    ensures Decode(a) == Decode(b) <==> a == b
  {
    if Decode(a) == Decode(b) {
      HalfInjective(Low(a), Low(b));
      HalfInjective(High(a), High(b));
      WordParts(a);
      WordParts(b);
    }
  }

  /** Installing raw limits in a word sets both fields, turns on enable and clamp for both, clears the lock and
      leaves every other bit of the register as it was. */
  lemma DecodeWithPowerLimits(word: Word, raw1: nat, raw2: nat)
    requires raw1 <= FIELD_MAX && raw2 <= FIELD_MAX
    ensures Decode(WithPowerLimits(word, raw1, raw2)) == Decode(word).WithLimits(raw1, raw2)
  {
    HalfWithLimit(Low(word), raw1);
    HalfWithLimit(High(word), raw2);
    HalfStays(Low(word), raw1, 0x8000);
    HalfStays(High(word), raw2, 0x4000);
    WordUnique(WithLimit(Low(word), raw1), WithLimit(High(word), raw2), false);
  }

  /** The masked comparison of the readback is equality of every field except the time windows. */
  lemma DecodeMatches(a: Word, b: Word)
    ensures Masked(a) == Masked(b) <==> Decode(a).Matches(Decode(b))
  {
    ControlsUnique(Low(a), Low(b));
    ControlsUnique(High(a), High(b));
    WordUnique(Controls(Low(a)), Controls(High(a)), Locked(a));
    WordUnique(Controls(Low(b)), Controls(High(b)), Locked(b));
  }

  lemma DecodeClearLock(word: Word)
    ensures Decode(ClearLock(word)) == Decode(word).Unlocked()
  {
    WordUnique(Low(word), High(word), false);
  }

  // ----- The power unit: raw counts of 2^-exponent W against milliwatts

  function Pow2(e: nat): (p: nat)
    ensures p > 0
  {
    if e == 0 then 1 else 2 * Pow2(e - 1)
  }

  function RawToMw(raw: nat, exponent: nat): nat {
    if exponent >= 31 then 0
    else (raw * 1000 + Pow2(exponent) / 2) / Pow2(exponent)
  }

  function MwToRaw(mw: nat, exponent: nat): (raw: nat)
    ensures raw <= FIELD_MAX
  {
    if exponent >= 31 then 0 else Encode(mw * Pow2(exponent), mw > 0)
  }

  /** Rounded to the nearest count, at least one for a positive request, at most what the field holds. */
  function Encode(scaled: nat, positive: bool): (raw: nat)
    ensures raw <= FIELD_MAX
  {
    var rounded := (scaled + 500) / 1000;
    var raw := if rounded == 0 && positive then 1 else rounded;
    if raw > FIELD_MAX then FIELD_MAX else raw
  }

  /** A request at or below a decoded limit encodes at or below that limit. */
  ghost predicate CeilingRespected(exponent: nat) {
    forall raw: nat, mw: nat | raw <= FIELD_MAX && mw <= RawToMw(raw, exponent) ::
      MwToRaw(mw, exponent) <= raw
  }

  lemma MwToRawMonotone(a: nat, b: nat, exponent: nat)
    requires a <= b
    ensures MwToRaw(a, exponent) <= MwToRaw(b, exponent)
  {
    if exponent < 31 {
      ScaledMonotone(a, b, Pow2(exponent));
      EncodeMonotone(a * Pow2(exponent), a > 0, b * Pow2(exponent), b > 0);
    }
  }

  lemma ScaledMonotone(a: nat, b: nat, d: nat)
    requires a <= b
    ensures a * d <= b * d
  {
  }

  lemma EncodeMonotone(x: nat, xp: bool, y: nat, yp: bool)
    requires x <= y && (xp ==> yp)
    ensures Encode(x, xp) <= Encode(y, yp)
  {
  }

  lemma Pow2Monotone(a: nat, b: nat)
    requires a <= b
    ensures Pow2(a) <= Pow2(b)
    decreases b - a
  {
    if a < b {
      Pow2Monotone(a + 1, b);
    }
  }

  lemma Rounded(x: nat, q: nat)
    requires 1000 * q <= x + 499 && x < 1000 * q + 500
    ensures (x + 500) / 1000 == q
  {
  }

  lemma NearestMultiple(mw: nat, d: nat, scaled: nat)
    requires d > 0 && mw == (scaled + d / 2) / d
    ensures scaled <= mw * d + d / 2 && mw * d <= scaled + d / 2
  {
    assert (scaled + d / 2) == mw * d + (scaled + d / 2) % d;
  }

  /** The reported milliwatts are the nearest to raw * 2^-exponent W. */
  lemma ReportedNearest(raw: nat, exponent: nat)
    requires exponent < 31
    ensures var mw, d := RawToMw(raw, exponent), Pow2(exponent);
      2 * (mw * d) <= 2000 * raw + d && 2000 * raw <= 2 * (mw * d) + d
  {
    NearestMultiple(RawToMw(raw, exponent), Pow2(exponent), raw * 1000);
  }

  /** The encoded field is the nearest to mw * 2^exponent / 1000, but never zero for a positive request and never more
      than the field holds. */
  lemma EncodedNearest(mw: nat, exponent: nat)
    requires exponent < 31
    ensures var raw, scaled := MwToRaw(mw, exponent), mw * Pow2(exponent);
      && (mw > 0 ==> raw > 0) && raw <= 0x7fff
      && (raw > 1 ==> 1000 * raw <= scaled + 500)
      && (raw < 0x7fff ==> scaled <= 1000 * raw + 499)
  {
  }

  /** For a unit of at least 2^-9 W every 15-bit limit survives being reported in milliwatts and encoded again. */
  lemma EncodeUndoesDecode(raw: nat, exponent: nat)
    requires raw <= FIELD_MAX && exponent <= 9
    ensures MwToRaw(RawToMw(raw, exponent), exponent) == raw
  {
    Pow2Monotone(exponent, 9);
    assert Pow2(9) == 512;
    SmallQuotient(Pow2(exponent) / 2, Pow2(exponent));
    NearestMultiple(RawToMw(raw, exponent), Pow2(exponent), raw * 1000);
    EncodeNearest(raw, RawToMw(raw, exponent), Pow2(exponent), RawToMw(raw, exponent) * Pow2(exponent));
  }

  lemma EncodeNearest(raw: nat, mw: nat, d: nat, scaled: nat)
    requires raw <= FIELD_MAX && 0 < d <= 512 && raw * 1000 <= scaled + d / 2 && scaled <= raw * 1000 + d / 2
    requires (mw == 0 ==> scaled == 0) && (raw == 0 ==> mw == 0)
    ensures Encode(scaled, mw > 0) == raw
  {
    Rounded(scaled, raw);
  }

  /** The milliwatt check of a request subsumes the raw check against the captured limit exactly when the unit is
      at least 2^-9 W, or so small that every 15-bit limit reads as zero. The four-bit exponent field of the
      hardware also allows 10 to 15, where some request at the reported ceiling is rejected. */
  lemma CeilingRespectedExactly(exponent: nat)
    ensures CeilingRespected(exponent) <==> exponent <= 9 || exponent >= 26
  {
    if exponent <= 9 {
      forall raw: nat, mw: nat | raw <= FIELD_MAX && mw <= RawToMw(raw, exponent)
        ensures MwToRaw(mw, exponent) <= raw
      {
        EncodeUndoesDecode(raw, exponent);
        MwToRawMonotone(mw, RawToMw(raw, exponent), exponent);
      }
    } else if exponent >= 26 {
      forall raw: nat, mw: nat | raw <= FIELD_MAX && mw <= RawToMw(raw, exponent)
        ensures MwToRaw(mw, exponent) <= raw
      {
        TinyUnit(raw, exponent);
      }
    } else {
      var raw := CeilingBreaker(exponent);
      assert MwToRaw(RawToMw(raw, exponent), exponent) > raw;
    }
  }

  lemma TinyUnit(raw: nat, exponent: nat)
    requires raw <= FIELD_MAX && exponent >= 26
    ensures RawToMw(raw, exponent) == 0
  {
    if exponent < 31 {
      Pow2Monotone(26, exponent);
      Powers();
      BelowHalf(raw * 1000, Pow2(exponent));
    }
  }

  lemma BelowHalf(x: nat, d: nat)
    requires 2 * x < d - 1
    ensures (x + d / 2) / d == 0
  {
    SmallQuotient(x + d / 2, d);
  }

  lemma SmallQuotient(y: nat, d: nat)
    requires d > 0
    ensures y < d <==> y / d == 0
  {
    var q := y / d;
    assert y == d * q + y % d;
    if q >= 1 {
      assert d * q >= d;
    }
  }

  lemma Powers()
    ensures Pow2(10) == 0x400 && Pow2(11) == 0x800 && Pow2(12) == 0x1000
    ensures Pow2(25) == 0x200_0000 && Pow2(26) == 0x400_0000
  {
    assert Pow2(14) == 0x4000 && Pow2(16) == 0x1_0000 && Pow2(18) == 0x4_0000;
    assert Pow2(20) == 0x10_0000 && Pow2(22) == 0x40_0000 && Pow2(24) == 0x100_0000;
  }

  /** A limit whose own reported ceiling encodes above it. */
  lemma CeilingBreaker(exponent: nat) returns (raw: nat)
    requires 10 <= exponent <= 25
    ensures raw <= FIELD_MAX && MwToRaw(RawToMw(raw, exponent), exponent) > raw
  {
    Powers();
    if exponent == 10 {
      raw := 64;
      assert MwToRaw(RawToMw(64, 10), 10) == 65;
    } else if exponent == 11 {
      raw := 22;
      assert MwToRaw(RawToMw(22, 11), 11) == 23;
    } else {
      raw := SmallUnitBreaker(exponent);
    }
  }

  lemma SmallUnitBreaker(exponent: nat) returns (raw: nat)
    requires 12 <= exponent <= 25
    ensures raw <= FIELD_MAX && MwToRaw(RawToMw(raw, exponent), exponent) > raw
  {
    Powers();
    Pow2Monotone(12, exponent);
    Pow2Monotone(exponent, 25);
    raw := Pow2(exponent) / 2000 + 1;
    AtLeastOne(raw, Pow2(exponent));
    OneMilliwatt(raw, exponent);
    MwToRawMonotone(1, RawToMw(raw, exponent), exponent);
  }

  lemma OneMilliwatt(raw: nat, exponent: nat)
    requires 12 <= exponent <= 25 && 0x1000 <= Pow2(exponent) <= 0x200_0000 && raw == Pow2(exponent) / 2000 + 1
    ensures raw <= FIELD_MAX && MwToRaw(1, exponent) > raw
  {
    assert 1 * Pow2(exponent) == Pow2(exponent);
  }

  lemma AtLeastOne(raw: nat, d: nat)
    requires d > 0 && raw == d / 2000 + 1
    ensures (raw * 1000 + d / 2) / d >= 1
  {
    SmallQuotient(raw * 1000 + d / 2, d);
  }
}
