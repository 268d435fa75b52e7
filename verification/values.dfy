/**
 * Value decoding: a value field is 7 hexadecimal digits holding the value
 * plus a fixed bias, followed by one SI unit-prefix character.
 *
 * The C code computes the result in `float`/`double`; here a value is kept
 * exactly, as the unbiased integer mantissa and the decimal exponent of the
 * prefix (or a zero scale for a character that is not a known prefix).
 */
module Values {
  import opened Numeric

  /** The bias the instrument adds so that the transmitted digits are never negative. */
  const OffsetValue: nat := 0x8000000

  /** Number of hexadecimal digits in a value field, before the prefix character. */
  const MantissaDigits: nat := 7

  /** The unit prefixes, from the smallest scale to the largest, three decades apart. */
  const UnitPrefixes: string := "afpnum KMGTPE"

  datatype Scale = Pow10(exponent: int) | ZeroScale

  datatype Value = Value(mantissa: int, scale: Scale)

  /** The scale factor of a unit-prefix character; every other character scales by zero. */
  function GetUnitPrefixValue(prefix: char): (scale: Scale)
    ensures scale == ZeroScale <==> prefix !in UnitPrefixes
    ensures scale.Pow10? ==> -18 <= scale.exponent <= 18 && scale.exponent % 3 == 0
  {
    match prefix
    case 'a' => Pow10(-18)
    case 'f' => Pow10(-15)
    case 'p' => Pow10(-12)
    case 'n' => Pow10(-9)
    case 'u' => Pow10(-6)
    case 'm' => Pow10(-3)
    case ' ' => Pow10(0)
    case 'K' => Pow10(3)
    case 'M' => Pow10(6)
    case 'G' => Pow10(9)
    case 'T' => Pow10(12)
    case 'P' => Pow10(15)
    case 'E' => Pow10(18)
    case _ => ZeroScale
  }

  /** The prefix table, read in order, climbs from 10^-18 to 10^18 in steps of three decades. */
  lemma UnitPrefixTable()
    ensures forall i :: 0 <= i < |UnitPrefixes| ==> GetUnitPrefixValue(UnitPrefixes[i]) == Pow10(3 * i - 18)
    ensures forall c :: c !in UnitPrefixes ==> GetUnitPrefixValue(c) == ZeroScale
  {
  }

  ghost function RealPow10(e: int): real
  {
    if e >= 0 then Pow(10, e) as real else 1.0 / Pow(10, -e) as real
  }

  /** The physical quantity a decoded value stands for. */
  ghost function Magnitude(v: Value): real
  {
    match v.scale
    case ZeroScale => 0.0
    case Pow10(e) => v.mantissa as real * RealPow10(e)
  }

  /**
   * Decodes a value field: the first 7 characters are the biased mantissa,
   * read as far as they are hexadecimal digits, the eighth is the unit prefix.
   */
  function GetParameterValue(field: string): (v: Value)
    requires |field| == MantissaDigits + 1
    ensures -(OffsetValue as int) <= v.mantissa < OffsetValue
  {
    Value(ParseHex(field[..MantissaDigits]) - OffsetValue, GetUnitPrefixValue(field[MantissaDigits]))
  }

  /** The value field the instrument sends for a mantissa and a prefix character. */
  function EncodeValue(mantissa: int, prefix: char): (field: string)
    requires -(OffsetValue as int) <= mantissa < OffsetValue
    ensures |field| == MantissaDigits + 1 && AllHex(field[..MantissaDigits])
    ensures field[MantissaDigits] == prefix
  {
    HexDigits(mantissa + OffsetValue, MantissaDigits) + [prefix]
  }

  /** Decoding recovers every mantissa the 7-digit field can carry, with the prefix's scale. */
  lemma DecodeEncode(mantissa: int, prefix: char)
    requires -(OffsetValue as int) <= mantissa < OffsetValue
    ensures GetParameterValue(EncodeValue(mantissa, prefix)) == Value(mantissa, GetUnitPrefixValue(prefix))
  {
    var digits := HexDigits(mantissa + OffsetValue, MantissaDigits);
    assert EncodeValue(mantissa, prefix)[..MantissaDigits] == digits;
    HexPrefixOfDigits(digits);
  }

  /** The bias point "8000000" decodes to zero whatever the prefix. */
  lemma BiasPointIsZero(prefix: char)
    ensures GetParameterValue("8000000" + [prefix]).mantissa == 0
    ensures Magnitude(GetParameterValue("8000000" + [prefix])) == 0.0
  {
    var field := "8000000" + [prefix];
    assert field[..MantissaDigits] == "8000000";
    assert HexDigits(OffsetValue, MantissaDigits) == "8000000";
    HexPrefixOfDigits("8000000");
  }

  /** A field whose prefix position holds the string terminator decodes with scale zero. */
  lemma MissingPrefixScalesToZero(mantissa: string)
    requires |mantissa| == MantissaDigits
    ensures GetParameterValue(mantissa + ['\0']).scale == ZeroScale
    ensures Magnitude(GetParameterValue(mantissa + ['\0'])) == 0.0
  {
    assert (mantissa + ['\0'])[..MantissaDigits] == mantissa;
  }

}
