/**
 * The MethodSCRIPT communication header: the two-letter variable-type
 * encoding, the variable-type, status and reply enumerations, and the layout
 * of a decoded package (line) with its subpackages and their metadata.
 */
module MSComm {
  import opened Wrappers
  import opened Numeric
  import opened Values

  // ---------------------------------------------------------------------
  // Variable types

  /** `MSCR_STR_TO_VT`: the variable type named by the first two characters of `str`. */
  function StrToVt(str: string): (vt: int)
    requires |str| >= 2
    ensures IsLower(str[0]) && IsLower(str[1]) ==> 0 <= vt < VarTypeNameCount
  {
    (str[0] as int - 'a' as int) * 26 + (str[1] as int - 'a' as int)
  }

  /** `VARTYPE_TO_UINT8`: the same encoding, from two separate characters. */
  function VartypeToUint8(ch1: char, ch2: char): (code: int)
    ensures IsLower(ch1) && IsLower(ch2) ==>
              0 <= code && (code <= 255 <==> ch1 < 'j' || (ch1 == 'j' && ch2 <= 'v'))
  {
    (ch1 as int - 'a' as int) * 26 + (ch2 as int - 'a' as int)
  }

  predicate IsLower(c: char)
  {
    'a' <= c <= 'z'
  }

  /** A MethodSCRIPT variable-type name: two lower-case letters. */
  predicate IsVarTypeName(s: string)
  {
    |s| == 2 && IsLower(s[0]) && IsLower(s[1])
  }

  /** Number of two-letter names: "aa" is 0 and "zz" is the last, 675. */
  const VarTypeNameCount: nat := 26 * 26

  /** The two-letter name of a code: the inverse of StrToVt. */
  function VtToStr(vt: int): (s: string)
    requires 0 <= vt < VarTypeNameCount
    ensures IsVarTypeName(s)
    ensures StrToVt(s) == vt
  {
    [('a' as int + vt / 26) as char, ('a' as int + vt % 26) as char]
  }

  /** The two spellings of the encoding agree. */
  lemma StrToVtAgreesWithVartypeToUint8(str: string)
    requires |str| >= 2
    ensures StrToVt(str) == VartypeToUint8(str[0], str[1])
  {
  }

  /** The examples the header gives for the encoding. */
  lemma StrToVtExamples()
    ensures StrToVt("aa") == 0 && StrToVt("ab") == 1 && StrToVt("ba") == 26 && StrToVt("zz") == 675
  {
  }

  /** Over two-letter names the encoding is onto 0..675 and has an inverse, hence is injective. */
  lemma VarTypeNameRoundTrip(s: string)
    requires IsVarTypeName(s)
    ensures 0 <= StrToVt(s) < VarTypeNameCount
    ensures VtToStr(StrToVt(s)) == s
  {
    var hi, lo := s[0] as int - 'a' as int, s[1] as int - 'a' as int;
    assert StrToVt(s) == hi * 26 + lo;
    assert (hi * 26 + lo) / 26 == hi && (hi * 26 + lo) % 26 == lo;
  }

  lemma StrToVtInjective(s: string, t: string)
    requires IsVarTypeName(s) && IsVarTypeName(t)
    ensures StrToVt(s) == StrToVt(t) <==> s == t
  {
    VarTypeNameRoundTrip(s);
    VarTypeNameRoundTrip(t);
  }

  /** The named variable types (`VarType`). */
  datatype VarType =
    | Unknown | Potential | PotentialCe | PotentialSe | PotentialRe | PotentialWeVsCe
    | PotentialAin0 | PotentialAin1 | PotentialAin2 | PotentialAin3
    | PotentialAin4 | PotentialAin5 | PotentialAin6 | PotentialAin7
    | Current
    | Phase | Imp | ZReal | ZImag
    | CellSetPotential | CellSetCurrent | CellSetFrequency | CellSetAmplitude
    | Channel | Time | PinMsk
    | DevAdcOffset | DevHsEx
    | CurrentGeneric1 | CurrentGeneric2 | CurrentGeneric3 | CurrentGeneric4
    | PotentialGeneric1 | PotentialGeneric2 | PotentialGeneric3 | PotentialGeneric4
    | MiscGeneric1 | MiscGeneric2 | MiscGeneric3 | MiscGeneric4
    | VtNone | VtCnt

  /** The integer value of each enumerator. */
  function VarTypeCode(vt: VarType): (code: int)
    ensures 0 <= code <= 256
  {
    match vt
    case Unknown => VartypeToUint8('a', 'a')
    case Potential => VartypeToUint8('a', 'b')
    case PotentialCe => VartypeToUint8('a', 'c')
    case PotentialSe => VartypeToUint8('a', 'd')
    case PotentialRe => VartypeToUint8('a', 'e')
    case PotentialWeVsCe => VartypeToUint8('a', 'g')
    case PotentialAin0 => VartypeToUint8('a', 's')
    case PotentialAin1 => VartypeToUint8('a', 't')
    case PotentialAin2 => VartypeToUint8('a', 'u')
    case PotentialAin3 => VartypeToUint8('a', 'v')
    case PotentialAin4 => VartypeToUint8('a', 'w')
    case PotentialAin5 => VartypeToUint8('a', 'x')
    case PotentialAin6 => VartypeToUint8('a', 'y')
    case PotentialAin7 => VartypeToUint8('a', 'z')
    case Current => VartypeToUint8('b', 'a')
    case Phase => VartypeToUint8('c', 'a')
    case Imp => VartypeToUint8('c', 'b')
    case ZReal => VartypeToUint8('c', 'c')
    case ZImag => VartypeToUint8('c', 'd')
    case CellSetPotential => VartypeToUint8('d', 'a')
    case CellSetCurrent => VartypeToUint8('d', 'b')
    case CellSetFrequency => VartypeToUint8('d', 'c')
    case CellSetAmplitude => VartypeToUint8('d', 'd')
    case Channel => VartypeToUint8('e', 'a')
    case Time => VartypeToUint8('e', 'b')
    case PinMsk => VartypeToUint8('e', 'c')
    case DevAdcOffset => VartypeToUint8('g', 'a')
    case DevHsEx => VartypeToUint8('g', 'b')
    case CurrentGeneric1 => VartypeToUint8('h', 'a')
    case CurrentGeneric2 => VartypeToUint8('h', 'b')
    case CurrentGeneric3 => VartypeToUint8('h', 'c')
    case CurrentGeneric4 => VartypeToUint8('h', 'd')
    case PotentialGeneric1 => VartypeToUint8('i', 'a')
    case PotentialGeneric2 => VartypeToUint8('i', 'b')
    case PotentialGeneric3 => VartypeToUint8('i', 'c')
    case PotentialGeneric4 => VartypeToUint8('i', 'd')
    case MiscGeneric1 => VartypeToUint8('j', 'a')
    case MiscGeneric2 => VartypeToUint8('j', 'b')
    case MiscGeneric3 => VartypeToUint8('j', 'c')
    case MiscGeneric4 => VartypeToUint8('j', 'd')
    case VtNone => 255
    case VtCnt => 256
  }

  /** The enumerator with a given integer value, if any: the inverse table of VarTypeCode. */
  function VarTypeOfCode(code: int): (vt: Option<VarType>)
    ensures vt.Some? ==> 0 <= code <= 256
  {
    match code
    case 0 => Some(Unknown)
    case 1 => Some(Potential)
    case 2 => Some(PotentialCe)
    case 3 => Some(PotentialSe)
    case 4 => Some(PotentialRe)
    case 6 => Some(PotentialWeVsCe)
    case 18 => Some(PotentialAin0)
    case 19 => Some(PotentialAin1)
    case 20 => Some(PotentialAin2)
    case 21 => Some(PotentialAin3)
    case 22 => Some(PotentialAin4)
    case 23 => Some(PotentialAin5)
    case 24 => Some(PotentialAin6)
    case 25 => Some(PotentialAin7)
    case 26 => Some(Current)
    case 52 => Some(Phase)
    case 53 => Some(Imp)
    case 54 => Some(ZReal)
    case 55 => Some(ZImag)
    case 78 => Some(CellSetPotential)
    case 79 => Some(CellSetCurrent)
    case 80 => Some(CellSetFrequency)
    case 81 => Some(CellSetAmplitude)
    case 104 => Some(Channel)
    case 105 => Some(Time)
    case 106 => Some(PinMsk)
    case 156 => Some(DevAdcOffset)
    case 157 => Some(DevHsEx)
    case 182 => Some(CurrentGeneric1)
    case 183 => Some(CurrentGeneric2)
    case 184 => Some(CurrentGeneric3)
    case 185 => Some(CurrentGeneric4)
    case 208 => Some(PotentialGeneric1)
    case 209 => Some(PotentialGeneric2)
    case 210 => Some(PotentialGeneric3)
    case 211 => Some(PotentialGeneric4)
    case 234 => Some(MiscGeneric1)
    case 235 => Some(MiscGeneric2)
    case 236 => Some(MiscGeneric3)
    case 237 => Some(MiscGeneric4)
    case 255 => Some(VtNone)
    case 256 => Some(VtCnt)
    case _ => None
  }

  /** The enumerator a two-letter name stands for, if any. */
  function VarTypeOfName(name: string): Option<VarType>
  {
    if IsVarTypeName(name) then VarTypeOfCode(StrToVt(name)) else None
  }

  /** Every enumerator is recovered from its value, so no two share a value. */
  lemma VarTypeCodeRoundTrip(vt: VarType)
    ensures VarTypeOfCode(VarTypeCode(vt)) == Some(vt)
  {
    // one enumerator at a time, so that each case is a closed computation
    match vt
    case Unknown => case Potential => case PotentialCe => case PotentialSe => case PotentialRe =>
    case PotentialWeVsCe => case PotentialAin0 => case PotentialAin1 => case PotentialAin2 =>
    case PotentialAin3 => case PotentialAin4 => case PotentialAin5 => case PotentialAin6 =>
    case PotentialAin7 => case Current => case Phase => case Imp => case ZReal => case ZImag =>
    case CellSetPotential => case CellSetCurrent => case CellSetFrequency => case CellSetAmplitude =>
    case Channel => case Time => case PinMsk => case DevAdcOffset => case DevHsEx =>
    case CurrentGeneric1 => case CurrentGeneric2 => case CurrentGeneric3 => case CurrentGeneric4 =>
    case PotentialGeneric1 => case PotentialGeneric2 => case PotentialGeneric3 => case PotentialGeneric4 =>
    case MiscGeneric1 => case MiscGeneric2 => case MiscGeneric3 => case MiscGeneric4 =>
    case VtNone => case VtCnt =>
  }

  lemma VarTypeCodesDistinct(vt: VarType, other: VarType)
    ensures VarTypeCode(vt) == VarTypeCode(other) <==> vt == other
  {
    VarTypeCodeRoundTrip(vt);
    VarTypeCodeRoundTrip(other);
  }

  /** Every enumerator except the count fits the uint8 it is stored in. */
  lemma VarTypeFitsUint8(vt: VarType)
    ensures vt != VtCnt ==> 0 <= VarTypeCode(vt) <= 255
  {
    VarTypeCodeRoundTrip(vt);
    assert VarTypeOfCode(256) == Some(VtCnt);
  }

  /** 255 is both `MSCR_VT_NONE` and the code of the name "jv"; the count is 256. */
  lemma VarTypeSentinels()
    ensures VarTypeCode(VtNone) == StrToVt("jv") == 255
    ensures VarTypeCode(VtCnt) == 256
  {
  }

  /** The enumerators for unset, potential and current are "aa", "ab" and "ba". */
  lemma VarTypeAnchors()
    ensures VarTypeCode(Unknown) == StrToVt("aa") == 0
    ensures VarTypeCode(Potential) == StrToVt("ab") == 1
    ensures VarTypeCode(Current) == StrToVt("ba") == 26
    ensures VarTypeCode(CellSetPotential) == StrToVt("da") == 78
  {
  }

  // ---------------------------------------------------------------------
  // Measurement status (a bitmask) and replies

  datatype Status = StatusOk | StatusOverload | StatusUnderload | StatusOverloadWarning

  function StatusBits(s: Status): (bits: nat)
    ensures bits == 0 <==> s == StatusOk
    ensures bits < 16
  {
    match s
    case StatusOk => 0x0
    case StatusOverload => 0x2
    case StatusUnderload => 0x4
    case StatusOverloadWarning => 0x8
  }

  /** The status values are zero or distinct single bits, so no two flags overlap. */
  lemma StatusBitsDisjoint(s: Status, t: Status)
    ensures StatusBits(s) == 0 || exists k :: 0 <= k < 4 && StatusBits(s) == Pow(2, k)
    ensures s != t ==> StatusBits(s) != StatusBits(t) && BitAnd(StatusBits(s), StatusBits(t)) == 0
  {
    assert BitAnd(2, 4) == 0 && BitAnd(2, 8) == 0 && BitAnd(4, 8) == 0;
    assert BitAnd(4, 2) == 0 && BitAnd(8, 2) == 0 && BitAnd(8, 4) == 0;
    match s
    case StatusOk =>
    case StatusOverload => assert StatusBits(s) == Pow(2, 1);
    case StatusUnderload => assert StatusBits(s) == Pow(2, 2);
    case StatusOverloadWarning => assert StatusBits(s) == Pow(2, 3);
  }

  datatype Reply = ReplyVersionResponse | ReplyMeasuring | ReplyMeasureDp | ReplyEndOfMeasLoop

  /** The first character of a reply line of each kind. */
  function ReplyMarker(r: Reply): (marker: char)
    ensures marker in "tMP*"
    ensures marker == 'P' <==> r == ReplyMeasureDp
  {
    match r
    case ReplyVersionResponse => 't'
    case ReplyMeasuring => 'M'
    case ReplyMeasureDp => 'P'
    case ReplyEndOfMeasLoop => '*'
  }

  lemma ReplyMarkersDistinct(r: Reply, q: Reply)
    ensures ReplyMarker(r) == ReplyMarker(q) <==> r == q
  {
  }

  // ---------------------------------------------------------------------
  // Package layout

  /** Capacity of a package: subpackages per line. */
  const SubpackagesPerLine: nat := 100

  /** Value of a metadata field the subpackage did not give. */
  const MetadataNotGiven: int := -1

  datatype MscrMetadata = MscrMetadata(status: int, currentRange: int)

  datatype MscrSubPackage = MscrSubPackage(value: Value, variableType: int, metadata: MscrMetadata)

  datatype MscrPackage = MscrPackage(nrOfSubpackages: int, subpackages: seq<MscrSubPackage>)

  predicate StatusGiven(m: MscrMetadata)
  {
    m.status != MetadataNotGiven
  }

  predicate CurrentRangeGiven(m: MscrMetadata)
  {
    m.currentRange != MetadataNotGiven
  }

  /** Metadata before any field is parsed: both fields "not given". */
  function NoMetadata(): (m: MscrMetadata)
    ensures !StatusGiven(m) && !CurrentRangeGiven(m)
  {
    MscrMetadata(MetadataNotGiven, MetadataNotGiven)
  }

  /** The fixed array holds `SubpackagesPerLine` entries, of which the counter says how many are in use. */
  predicate ValidPackage(p: MscrPackage)
  {
    |p.subpackages| == SubpackagesPerLine && 0 <= p.nrOfSubpackages <= SubpackagesPerLine
  }

  function UsedSubpackages(p: MscrPackage): seq<MscrSubPackage>
    requires ValidPackage(p)
  {
    p.subpackages[..p.nrOfSubpackages]
  }

  /** A package with no subpackage in use; `filler` stands for the unused array cells. */
  function EmptyPackage(filler: MscrSubPackage): (p: MscrPackage)
    ensures ValidPackage(p) && UsedSubpackages(p) == []
  {
    MscrPackage(0, seq(SubpackagesPerLine, _ => filler))
  }

  /** Storing the next subpackage: the counter moves on by one and the earlier entries stay. */
  function AddSubpackage(p: MscrPackage, sp: MscrSubPackage): (r: MscrPackage)
    requires ValidPackage(p) && p.nrOfSubpackages < SubpackagesPerLine
    ensures ValidPackage(r)
    ensures UsedSubpackages(r) == UsedSubpackages(p) + [sp]
  {
    var r := MscrPackage(p.nrOfSubpackages + 1, p.subpackages[p.nrOfSubpackages := sp]);
    assert UsedSubpackages(r) == UsedSubpackages(p) + [sp];
    r
  }

}
