/** IA32_HWP_CAPABILITIES (0x771) and the HWP request registers (0x772, 0x774), with the requests the driver builds.

    As in `RaplCodec`, words are unsigned values; decoding is injective and commutes with the word operations. */
module HwpCodec {
  import opened RaplCodec

  datatype Capabilities = Capabilities(highest: nat, guaranteed: nat, efficient: nat, lowest: nat) {
    predicate Sane() {
      highest > 0 && lowest <= highest && efficient <= highest && guaranteed <= highest
    }
  }

  /** The fields of a request; bit 42 gives control to the package request, bit 62 takes back the maximum. */
  datatype Request = Request(
    minimum: nat, maximum: nat, desired: nat, epp: nat,
    window: nat, packageControl: bool, reserved: nat, maximumValid: bool, minimumValid: bool)
  {
    function WithMaximum(m: nat): Request {
      this.(maximum := m)
    }

    function WithLocalMaximum(m: nat, flexible: bool): Request {
      this.(maximum := m, maximumValid := maximumValid || (packageControl && flexible))
    }

    /** The maximum the CPU obeys: its own request's, or the package request's. */
    function EffectiveMaximum(package: Request, flexible: bool): nat {
      if !packageControl || (flexible && maximumValid) then maximum else package.maximum
    }
  }

  /** `tm_hwp_make_request`: every bit above the four performance fields is zero. */
  function MakeRequest(minimum: nat, maximum: nat, desired: nat, epp: nat): Request {
    Request(minimum, maximum, desired, epp, 0, false, 0, false, false)
  }

  function FailSafeRequest(c: Capabilities, epp: bool): Request {
    var maximum := if c.efficient < c.lowest || c.efficient >= c.highest then c.lowest else c.efficient;
    MakeRequest(c.lowest, maximum, 0, if epp then 0xff else 0)
  }

  function ActiveRequest(c: Capabilities, epp: bool): Request {
    MakeRequest(c.lowest, c.highest, 0, if epp then 0x80 else 0)
  }

  /** What a fail-safe request asks for: no more than the lowest level as a minimum, a maximum between it and the
      highest level, the most efficient one where that lies between them, no desired level, the strongest energy
      preference. */
  ghost predicate Frugal(r: Request, c: Capabilities, epp: bool) {
    && r.minimum == c.lowest <= r.maximum < c.highest && r.desired == 0
    && (c.lowest <= c.efficient < c.highest ==> r.maximum == c.efficient)
    && (!(c.lowest <= c.efficient < c.highest) ==> r.maximum == r.minimum)
    && r.epp == (if epp then 255 else 0)
    && !r.packageControl && !r.maximumValid && !r.minimumValid && r.window == r.reserved == 0
  }

  /** What the request of an armed driver that turned HWP on asks for: any level, none desired, a balanced preference.
      */
  ghost predicate Unrestrained(r: Request, c: Capabilities, epp: bool) {
    && r.minimum == c.lowest && r.maximum == c.highest && r.desired == 0 && r.epp == (if epp then 128 else 0)
    && !r.packageControl && !r.maximumValid && !r.minimumValid && r.window == r.reserved == 0
  }

  lemma FailSafeIsFrugal(c: Capabilities, epp: bool)
    ensures Frugal(FailSafeRequest(c, epp), c, epp) <==> c.lowest < c.highest
    ensures Unrestrained(ActiveRequest(c, epp), c, epp)
  {
  }

  /** The request agrees with the one captured in everything but its maximum. */
  ghost predicate RaisedFrom(r: Request, captured: Request) {
    r.(maximum := captured.maximum, maximumValid := captured.maximumValid) == captured
  }

  /** A maximum the driver accepts as Apple's restriction. */
  predicate Restricted(r: Request, package: Request, c: Capabilities, flexible: bool) {
    c.lowest <= r.EffectiveMaximum(package, flexible) < c.highest
  }

  /** The fail-safe request is restricted whatever the package request holds. */
  lemma FailSafeIsRestricted(c: Capabilities, epp: bool, package: Request, flexible: bool)
    ensures Restricted(FailSafeRequest(c, epp), package, c, flexible) <==> c.lowest < c.highest
  {
  }

  // ----- Words

  function Byte(word: nat, k: nat): (b: nat)
    requires k < 4
    ensures b < 0x100
  {
    match k
    case 0 => word % 0x100
    case 1 => word / 0x100 % 0x100
    case 2 => word / 0x1_0000 % 0x100
    case 3 => word / 0x100_0000 % 0x100
  }

  /** Bits 32 to 63. */
  function Upper(word: Word): nat { word / 0x1_0000_0000 }

  /** 0x771: the four levels, a byte each. */
  function DecodeCapabilities(word: Word): Capabilities {
    Capabilities(Byte(word, 0), Byte(word, 1), Byte(word, 2), Byte(word, 3))
  }

  /** `tm_hwp_make_request` on words. */
  function WordMakeRequest(minimum: nat, maximum: nat, desired: nat, epp: nat): Word {
    minimum % 0x100 + 0x100 * (maximum % 0x100) + 0x1_0000 * (desired % 0x100) + 0x100_0000 * (epp % 0x100)
  }

  /** `tm_hwp_failsafe_request` on words. */
  function WordFailSafe(capabilities: Word, epp: bool): Word {
    var lowest, highest, efficient := Byte(capabilities, 3), Byte(capabilities, 0), Byte(capabilities, 2);
    var maximum := if efficient < lowest || efficient >= highest then lowest else efficient;
    WordMakeRequest(lowest, maximum, 0, if epp then 0xff else 0)
  }

  /** `tm_hwp_active_request` on words. */
  function WordActive(capabilities: Word, epp: bool): Word {
    WordMakeRequest(Byte(capabilities, 3), Byte(capabilities, 0), 0, if epp then 0x80 else 0)
  }

  predicate PackageControl(word: Word) { Upper(word) / 0x400 % 2 == 1 }
  predicate MaximumValid(word: Word) { Upper(word) / 0x4000_0000 % 2 == 1 }

  function DecodeRequest(word: Word): Request {
    var u := Upper(word);
    Request(Byte(word, 0), Byte(word, 1), Byte(word, 2), Byte(word, 3),
            u % 0x400, PackageControl(word), u / 0x800 % 0x8_0000, MaximumValid(word), u / 0x8000_0000 % 2 == 1)
  }

  /** Clear bits 8 to 15 and set them to `maximum`. */
  function WordWithMaximum(word: Word, maximum: nat): Word
    requires maximum < 0x100
  {
    WithMaximumFits(word, maximum);
    word - 0x100 * Byte(word, 1) + 0x100 * maximum
  }

  lemma WithMaximumFits(word: Word, maximum: nat)
    requires maximum < 0x100
    ensures 0 <= word - 0x100 * Byte(word, 1) + 0x100 * maximum < 0x1_0000_0000_0000_0000
  {
    var high := word / 0x100 / 0x100;
    assert word == word % 0x100 + 0x100 * Byte(word, 1) + 0x1_0000 * high;
    assert high < 0x1_0000_0000_0000;
  }

  function WordWithLocalMaximum(word: Word, maximum: nat, flexible: bool): Word
    requires maximum < 0x100
  {
    var result := WordWithMaximum(word, maximum);
    if PackageControl(word) && flexible && !MaximumValid(result) then
      UpperParts(result);
      result + 0x4000_0000_0000_0000
    else result
  }

  /** The lowest byte of a number, and what is above it. */
  lemma Peel(word: nat, low: nat, rest: nat)
    requires low < 0x100 && word == low + 0x100 * rest
    ensures word % 0x100 == low && word / 0x100 == rest
  {
  }

  lemma ByteSteps(word: nat)
    ensures word / 0x1_0000 == word / 0x100 / 0x100
    ensures word / 0x100_0000 == word / 0x100 / 0x100 / 0x100
    ensures word / 0x1_0000_0000 == word / 0x100 / 0x100 / 0x100 / 0x100
  {
  }

  lemma LowParts(word: nat)
    ensures word == Byte(word, 0) + 0x100 * Byte(word, 1) + 0x1_0000 * Byte(word, 2) + 0x100_0000 * Byte(word, 3)
                    + 0x1_0000_0000 * (word / 0x1_0000_0000)
  {
    ByteSteps(word);
  }

  lemma LowUnique(word: nat, b0: nat, b1: nat, b2: nat, b3: nat, upper: nat)
    requires b0 < 0x100 && b1 < 0x100 && b2 < 0x100 && b3 < 0x100
    requires word == b0 + 0x100 * b1 + 0x1_0000 * b2 + 0x100_0000 * b3 + 0x1_0000_0000 * upper
    ensures Byte(word, 0) == b0 && Byte(word, 1) == b1 && Byte(word, 2) == b2 && Byte(word, 3) == b3
    ensures word / 0x1_0000_0000 == upper
  {
    ByteSteps(word);
    Peel(word, b0, b1 + 0x100 * b2 + 0x1_0000 * b3 + 0x100_0000 * upper);
    Peel(b1 + 0x100 * b2 + 0x1_0000 * b3 + 0x100_0000 * upper, b1, b2 + 0x100 * b3 + 0x1_0000 * upper);
    Peel(b2 + 0x100 * b3 + 0x1_0000 * upper, b2, b3 + 0x100 * upper);
    Peel(b3 + 0x100 * upper, b3, upper);
  }

  lemma UpperParts(word: Word)
    ensures var r := DecodeRequest(word);
      Upper(word) == r.window + 0x400 * Bit(r.packageControl) + 0x800 * r.reserved
                     + 0x4000_0000 * Bit(r.maximumValid) + 0x8000_0000 * Bit(r.minimumValid)
  {
    var u := Upper(word);
    assert u / 0x800 == u / 0x400 / 2;
    assert u / 0x4000_0000 == u / 0x800 / 0x8_0000;
    assert u / 0x8000_0000 == u / 0x4000_0000 / 2;
  }

  /** Which bits of a request word are which field. */
  lemma RequestLayout(word: Word)
    ensures var r := DecodeRequest(word);
      && r.minimum == word % 256 && r.maximum == word / 256 % 256 && r.desired == word / 65536 % 256
      && r.epp == word / 16777216 % 256
      && (r.packageControl <==> word / 0x400_0000_0000 % 2 == 1)          // bit 42
      && (r.maximumValid <==> word / 0x4000_0000_0000_0000 % 2 == 1)     // bit 62
      && (r.minimumValid <==> word / 0x8000_0000_0000_0000 % 2 == 1)     // bit 63
  {
    assert word / 0x400_0000_0000 == Upper(word) / 0x400;
    assert word / 0x4000_0000_0000_0000 == Upper(word) / 0x4000_0000;
    assert word / 0x8000_0000_0000_0000 == Upper(word) / 0x8000_0000;
  }

  /** The maximum a CPU obeys, from the words: its own bits 8 to 15, unless bit 42 hands control to the package request
      and bit 62 does not take the maximum back, which it can only with flexible request fields. */
  lemma EffectiveFromWords(own: Word, package: Word, flexible: bool)
    ensures var m := DecodeRequest(own).EffectiveMaximum(DecodeRequest(package), flexible);
      var handed := own / 0x400_0000_0000 % 2 == 1;
      var back := flexible && own / 0x4000_0000_0000_0000 % 2 == 1;
      && (!handed || back ==> m == own / 256 % 256)
      && (handed && !back ==> m == package / 256 % 256)
  {
    RequestLayout(own);
    RequestLayout(package);
  }

  /** Capabilities are sane when there is a highest level and none of the others is above it. */
  lemma SaneExactly(c: Capabilities)
    ensures c.Sane() <==>
              1 <= c.highest && !(c.lowest > c.highest) && !(c.efficient > c.highest) && !(c.guaranteed > c.highest)
  {
  }

  lemma CapabilitiesLayout(word: Word)
    ensures var c := DecodeCapabilities(word);
      && c.highest == word % 256 && c.guaranteed == word / 256 % 256
      && c.efficient == word / 65536 % 256 && c.lowest == word / 16777216 % 256
  {
  }

  /** A made word decodes to the made record, each field reduced to its byte. */
  lemma DecodeMakeRequest(minimum: nat, maximum: nat, desired: nat, epp: nat)
    ensures DecodeRequest(WordMakeRequest(minimum, maximum, desired, epp))
            == MakeRequest(minimum % 0x100, maximum % 0x100, desired % 0x100, epp % 0x100)
  {
    var word := WordMakeRequest(minimum, maximum, desired, epp);
    LowUnique(word, minimum % 0x100, maximum % 0x100, desired % 0x100, epp % 0x100, 0);
  }

  lemma IsByte(b: nat)
    requires b < 0x100
    ensures b % 0x100 == b
  {
  }

  /** The requests the driver builds from the capabilities word, as words, decode to the records it reasons with. */
  lemma DecodeFailSafe(capabilities: Word, epp: bool)
    ensures DecodeRequest(WordFailSafe(capabilities, epp)) == FailSafeRequest(DecodeCapabilities(capabilities), epp)
  {
    var r := FailSafeRequest(DecodeCapabilities(capabilities), epp);
    DecodeMakeRequest(r.minimum, r.maximum, 0, r.epp);
    IsByte(r.minimum);
    IsByte(r.maximum);
    IsByte(r.epp);
  }

  lemma DecodeActive(capabilities: Word, epp: bool)
    ensures DecodeRequest(WordActive(capabilities, epp)) == ActiveRequest(DecodeCapabilities(capabilities), epp)
  {
    var r := ActiveRequest(DecodeCapabilities(capabilities), epp);
    DecodeMakeRequest(r.minimum, r.maximum, 0, r.epp);
    IsByte(r.minimum);
    IsByte(r.maximum);
    IsByte(r.epp);
  }

  lemma DecodeRequestInjective(a: Word, b: Word)
    ensures DecodeRequest(a) == DecodeRequest(b) <==> a == b
  {
    LowParts(a);
    LowParts(b);
    UpperParts(a);
    UpperParts(b);
  }

  lemma DecodeWithMaximum(word: Word, maximum: nat)
    requires maximum < 0x100
    ensures DecodeRequest(WordWithMaximum(word, maximum)) == DecodeRequest(word).WithMaximum(maximum)
  {
    LowParts(word);
    LowUnique(WordWithMaximum(word, maximum), Byte(word, 0), maximum, Byte(word, 2), Byte(word, 3), Upper(word));
  }

  /** The override sets the maximum, takes it back from the package request where that is possible, and touches
      no other bit. */
  lemma DecodeWithLocalMaximum(word: Word, maximum: nat, flexible: bool)
    requires maximum < 0x100
    ensures DecodeRequest(WordWithLocalMaximum(word, maximum, flexible))
            == DecodeRequest(word).WithLocalMaximum(maximum, flexible)
  {
    var base := WordWithMaximum(word, maximum);
    DecodeWithMaximum(word, maximum);
    LowParts(base);
    if PackageControl(word) && flexible && !MaximumValid(base) {
      var out := WordWithLocalMaximum(word, maximum, flexible);
      UpperParts(base);
      LowUnique(out, Byte(base, 0), Byte(base, 1), Byte(base, 2), Byte(base, 3), Upper(base) + 0x4000_0000);
      SetBit30(Upper(base));
    }
  }

  lemma SetBit30(u: nat)
    requires u < 0x1_0000_0000 && u / 0x4000_0000 % 2 == 0
    ensures var v := u + 0x4000_0000;
      && v % 0x400 == u % 0x400 && v / 0x400 % 2 == u / 0x400 % 2 && v / 0x800 % 0x8_0000 == u / 0x800 % 0x8_0000
      && v / 0x4000_0000 % 2 == 1 && v / 0x8000_0000 % 2 == u / 0x8000_0000 % 2
  {
    var v := u + 0x4000_0000;
    Shifted(u, 0x400, 0x10_0000);
    Shifted(u, 0x800, 0x8_0000);
    Shifted(u, 0x4000_0000, 1);
    SameParity(v / 0x400, u / 0x400, 0x8_0000);
    WholeTurn(u / 0x800, 0x8_0000);
    assert u / 0x8000_0000 == u / 0x4000_0000 / 2 && v / 0x8000_0000 == v / 0x4000_0000 / 2;
  }

  lemma Shifted(u: nat, d: nat, k: nat)
    requires (d == 0x400 && k == 0x10_0000) || (d == 0x800 && k == 0x8_0000) || (d == 0x4000_0000 && k == 1)
    ensures (u + 0x4000_0000) / d == u / d + k && (u + 0x4000_0000) % d == u % d
  {
  }

  lemma WholeTurn(x: nat, d: nat)
    requires d == 0x8_0000
    ensures (x + d) % d == x % d
  {
  }
}
