/**
 * The value helpers shared by the DogStatsD generators: numeric values and
 * their text, the generator that picks integers or floats from a configured
 * constant or range, and the sample rate `ZeroToOne`.
 *
 * Random draws are inputs. A draw that Rust takes from a range is given as a
 * raw number and mapped into the range here; floating-point text is left
 * abstract (`FloatText`), only which number it denotes is kept.
 */
module DogStatsDCommon {
  import opened Wrappers
  import opened Numerals

  const U32: nat := 0x1_0000_0000

  /** A metric value: a 64-bit integer or a float (kept as an exact real). */
  datatype NumValue = Int(i: int) | Float(f: real)

  /** Text as written: exact digits, or the float text of a number, which is not spelled out. */
  datatype Rendered = Digits(text: string) | FloatText(x: real)

  /** The number a rendering stands for; digits that do not read as an integer stand for 0. */
  function Denotes(r: Rendered): real
  {
    match r
    case Digits(t) => (match ParseInt(t) case Some(v) => v as real case None => 0.0)
    case FloatText(x) => x
  }

  /** `NumValue`'s Display: an integer as its base-ten text, a float as float text. */
  function NumValueText(v: NumValue): (r: Rendered)
    ensures v.Int? ==> r.Digits? && ParseInt(r.text) == Some(v.i)
    ensures v.Float? ==> r == FloatText(v.f)
    ensures Denotes(r) == match v case Int(i) => i as real case Float(f) => f
  {
    match v
    case Int(i) => IntTextRoundTrip(i); Digits(IntText(i))
    case Float(f) => FloatText(f)
  }

  /** A sample rate: exactly one, or the reciprocal of a 32-bit integer (zero meaning 0). */
  datatype ZeroToOne = One | Frac(n: nat)

  /** The rate a `ZeroToOne` stands for. */
  function RateOf(z: ZeroToOne): real
    requires z.Frac? ==> z.n < U32
  {
    match z
    case One => 1.0
    case Frac(n) => if n == 0 then 0.0 else 1.0 / (n as real)
  }

  /**
   * Sampling: a draw from `0..=1` chooses the variant, a 32-bit draw gives the
   * denominator.
   */
  function SampleZeroToOne(choice: nat, frac: nat): (z: ZeroToOne)
    requires choice <= 1 && frac < U32
    ensures choice == 0 <==> z == One
    ensures choice == 1 <==> z == Frac(frac)
    ensures z.Frac? ==> z.n < U32
  {
    if choice == 0 then One else Frac(frac)
  }

  /**
   * `ZeroToOne`'s Display: `1` for one, `0` for a zero denominator (no
   * division happens), otherwise the float text of 1/n, a number in (0, 1].
   */
  function ZeroToOneText(z: ZeroToOne): (r: Rendered)
    requires z.Frac? ==> z.n < U32
    ensures z == One ==> r == Digits("1")
    ensures z == Frac(0) ==> r == Digits("0")
    ensures r.FloatText? ==> 0.0 < r.x <= 1.0
    ensures Denotes(r) == RateOf(z)
  {
    match z
    case One =>
      assert ParseInt("1") == Some(1) by { ParseDecimalRoundTrip(1); }
      Digits("1")
    case Frac(n) =>
      if n == 0 then
        assert ParseInt("0") == Some(0) by { ParseDecimalRoundTrip(0); }
        Digits("0")
      else
        assert 1.0 / (n as real) <= 1.0 by { ReciprocalAtMostOne(n as real); }
        FloatText(1.0 / (n as real))
  }

  lemma ReciprocalAtMostOne(x: real)
    requires x >= 1.0
    ensures 0.0 < 1.0 / x <= 1.0
  {
  }

  /** Every sample rate lies in [0, 1]. */
  lemma RateInUnitInterval(z: ZeroToOne)
    requires z.Frac? ==> z.n < U32
    ensures 0.0 <= RateOf(z) <= 1.0
  {
    if z.Frac? && z.n != 0 {
      ReciprocalAtMostOne(z.n as real);
    }
  }

  /** The configured range of values: one constant, or an inclusive range. */
  datatype ValueRange = Constant(c: int) | Inclusive(min: int, max: int)

  datatype ValueConf = ValueConf(floatProbability: real, range: ValueRange)

  /** The value generator: a constant, or uniform integer and float ranges. */
  datatype NumValueGenerator =
    | ConstantGen(floatProbability: real, intValue: int, floatValue: real)
    | UniformGen(floatProbability: real, intMin: int, intMax: int, floatMin: real, floatMax: real)
  {
    /** The uniform ranges are non-empty, as `Uniform::new_inclusive` demands. */
    predicate Valid()
    {
      UniformGen? ==> intMin <= intMax && floatMin <= floatMax
    }
  }

  /**
   * Builds the generator from its configuration. An inclusive range with
   * min > max makes `Uniform::new_inclusive` panic; callers must not pass one.
   */
  function NewGenerator(conf: ValueConf): (g: NumValueGenerator)
    requires conf.range.Inclusive? ==> conf.range.min <= conf.range.max
    ensures g.Valid()
    ensures g.floatProbability == conf.floatProbability
    ensures conf.range.Constant? <==> g.ConstantGen?
    ensures g.ConstantGen? ==> g.intValue == conf.range.c && g.floatValue == conf.range.c as real
    ensures g.UniformGen? ==> g.intMin == conf.range.min && g.intMax == conf.range.max
    ensures g.UniformGen? ==> g.floatMin == conf.range.min as real && g.floatMax == conf.range.max as real
  {
    match conf.range
    case Constant(c) => ConstantGen(conf.floatProbability, c, c as real)
    case Inclusive(min, max) => UniformGen(conf.floatProbability, min, max, min as real, max as real)
  }

  /** A uniform integer draw in [lo, hi], given as a raw draw folded into the range. */
  function UniformInt(lo: int, hi: int, raw: nat): (v: int)
    requires lo <= hi
    ensures lo <= v <= hi
  {
    lo + raw % (hi - lo + 1)
  }

  /** Every integer of the range is drawn by some raw draw. */
  lemma UniformIntReachesAll(lo: int, hi: int, v: int)
    requires lo <= v <= hi
    ensures UniformInt(lo, hi, (v - lo) as nat) == v
  {
  }

  /** A uniform float draw in [lo, hi], given as a point of the unit interval scaled into the range. */
  function UniformFloat(lo: real, hi: real, unit: real): (x: real)
    requires lo <= hi && 0.0 <= unit <= 1.0
    ensures lo <= x <= hi
  {
    var span := hi - lo;
    var offset := unit * span;
    assert 0.0 <= offset <= span by { ScaleWithin(unit, span); }
    lo + offset
  }

  lemma ScaleWithin(u: real, d: real)
    requires 0.0 <= u <= 1.0 && d >= 0.0
    ensures 0.0 <= u * d <= d
  {
    assert u * d <= 1.0 * d by { MulMonotone(u, 1.0, d); }
  }

  lemma MulMonotone(a: real, b: real, d: real)
    requires a <= b && d >= 0.0
    ensures a * d <= b * d
  {
    assert (b - a) * d >= 0.0;
  }

  /**
   * One value: `prob` is the draw from (0, 1]; a float is produced exactly when
   * it falls below the float probability. The uniform branches then draw from
   * their range (`raw` for integers, `unit` for floats).
   */
  function Generate(g: NumValueGenerator, prob: real, raw: nat, unit: real): (v: NumValue)
    requires g.Valid()
    requires 0.0 < prob <= 1.0 && 0.0 <= unit <= 1.0
    ensures v.Float? <==> prob < g.floatProbability
    ensures g.ConstantGen? ==> v == Int(g.intValue) || v == Float(g.floatValue)
    ensures g.UniformGen? && v.Int? ==> g.intMin <= v.i <= g.intMax
    ensures g.UniformGen? && v.Float? ==> g.floatMin <= v.f <= g.floatMax
  {
    match g
    case ConstantGen(fp, i, f) => if prob < fp then Float(f) else Int(i)
    case UniformGen(fp, lo, hi, flo, fhi) =>
      if prob < fp then Float(UniformFloat(flo, fhi, unit)) else Int(UniformInt(lo, hi, raw))
  }

  /** A float probability of zero or less never yields a float. */
  lemma NonPositiveProbabilityYieldsInt(g: NumValueGenerator, prob: real, raw: nat, unit: real)
    requires g.Valid() && g.floatProbability <= 0.0
    requires 0.0 < prob <= 1.0 && 0.0 <= unit <= 1.0
    ensures Generate(g, prob, raw, unit).Int?
  {
  }

  /** A float probability above one always yields a float. */
  lemma ProbabilityAboveOneYieldsFloat(g: NumValueGenerator, prob: real, raw: nat, unit: real)
    requires g.Valid() && g.floatProbability > 1.0
    requires 0.0 < prob <= 1.0 && 0.0 <= unit <= 1.0
    ensures Generate(g, prob, raw, unit).Float?
  {
  }

  /** A value generated from a configuration always lies in the configured range. */
  lemma GeneratedValueInConfiguredRange(conf: ValueConf, prob: real, raw: nat, unit: real)
    requires conf.range.Inclusive? ==> conf.range.min <= conf.range.max
    requires 0.0 < prob <= 1.0 && 0.0 <= unit <= 1.0
    ensures var v := Generate(NewGenerator(conf), prob, raw, unit);
            match conf.range
            case Constant(c) => v == Int(c) || v == Float(c as real)
            case Inclusive(min, max) =>
              (v.Int? ==> min <= v.i <= max) && (v.Float? ==> min as real <= v.f <= max as real)
  {
  }
}
