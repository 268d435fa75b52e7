/**
 * Metadata decoding: the status field (tag '1', a hexadecimal bitmask) and
 * the current-range field (tag '2', a hexadecimal byte).
 */
module Metadata {
  import opened Wrappers
  import opened Numeric
  import opened MSComm

  /** The text the decoder returns for each status. */
  function StatusLabel(s: Status): string
  {
    match s
    case StatusOk => "OK"
    case StatusOverload => "Overload"
    case StatusUnderload => "Underload"
    case StatusOverloadWarning => "Overload warning"
  }

  /** The four labels, and no two statuses share one. */
  lemma StatusLabels(s: Status, t: Status)
    ensures StatusLabel(StatusOk) == "OK" && StatusLabel(StatusOverload) == "Overload"
    ensures StatusLabel(StatusUnderload) == "Underload" && StatusLabel(StatusOverloadWarning) == "Overload warning"
    ensures StatusLabel(s) == StatusLabel(t) <==> s == t
  {
  }

  /**
   * Four tests in a fixed order, each overwriting the result when it holds;
   * `None` stands for the result before any test held (the C variable left uninitialised).
   * The first test masks with 0x0 and so always holds.
   */
  function StatusCascade(statusBits: nat): (status: Option<Status>)
    ensures status.Some?
  {
    var status: Option<Status> := None;
    var status := if BitAnd(statusBits, 0x0) == StatusBits(StatusOk) then Some(StatusOk) else status;
    var status := if BitAnd(statusBits, 0x2) == StatusBits(StatusOverload) then Some(StatusOverload) else status;
    var status := if BitAnd(statusBits, 0x4) == StatusBits(StatusUnderload) then Some(StatusUnderload) else status;
    if BitAnd(statusBits, 0x8) == StatusBits(StatusOverloadWarning) then Some(StatusOverloadWarning) else status
  }

  /** The status of a status field: the bitmask starts right after the tag. */
  function GetReadingStatusFromPackage(metaDataStatus: string): (status: Option<Status>)
    requires |metaDataStatus| >= 1
    ensures status.Some?
  {
    StatusCascade(ParseHex(metaDataStatus[1..]))
  }

  /**
   * The last test that holds wins: bit 3 gives an overload warning whatever
   * else is set, then bit 2 gives underload, then bit 1 overload; with none
   * of them set (bit 0 plays no part) the status is OK.
   */
  lemma StatusPrecedence(statusBits: nat)
    ensures StatusCascade(statusBits) == Some(StatusOverloadWarning) <==> BitSet(statusBits, 3)
    ensures StatusCascade(statusBits) == Some(StatusUnderload) <==>
              BitSet(statusBits, 2) && !BitSet(statusBits, 3)
    ensures StatusCascade(statusBits) == Some(StatusOverload) <==>
              BitSet(statusBits, 1) && !BitSet(statusBits, 2) && !BitSet(statusBits, 3)
    ensures StatusCascade(statusBits) == Some(StatusOk) <==>
              !BitSet(statusBits, 1) && !BitSet(statusBits, 2) && !BitSet(statusBits, 3)
  {
    BitAndSingleBit(statusBits, 1);
    BitAndSingleBit(statusBits, 2);
    BitAndSingleBit(statusBits, 3);
  }

  /** The status words the cascade is known for. */
  lemma StatusExamples()
    ensures StatusCascade(0x0) == Some(StatusOk) && StatusCascade(0x1) == Some(StatusOk)
    ensures StatusCascade(0x2) == Some(StatusOverload)
    ensures StatusCascade(0x4) == Some(StatusUnderload) && StatusCascade(0x6) == Some(StatusUnderload)
    ensures StatusCascade(0x8) == Some(StatusOverloadWarning)
    ensures StatusCascade(0xC) == Some(StatusOverloadWarning) && StatusCascade(0xE) == Some(StatusOverloadWarning)
  {
  }

  /** Current-range codes of the high-speed ranges start here. */
  const HighSpeedBase: nat := 128

  /** The standard ranges, codes 0 to 11. */
  const StandardRanges: seq<string> :=
    ["100nA", "2uA", "4uA", "8uA", "16uA", "32uA", "63uA", "125uA", "250uA", "500uA", "1mA", "15mA"]

  /** The high-speed ranges, codes 128 to 137, each labelled with HighSpeedSuffix. */
  const HighSpeedRanges: seq<string> :=
    ["100nA", "1uA", "6uA", "13uA", "25uA", "50uA", "100uA", "200uA", "1mA", "5mA"]

  const HighSpeedSuffix: string := " (High speed)"

  /** The text of each current-range code; `None` for a code that matches no case. */
  function CurrentRangeLabel(crByte: int): Option<string>
  {
    if 0 <= crByte < |StandardRanges| then Some(StandardRanges[crByte])
    else if HighSpeedBase <= crByte < HighSpeedBase + |HighSpeedRanges| then
      Some(HighSpeedRanges[crByte - HighSpeedBase] + HighSpeedSuffix)
    else None
  }

  predicate IsHighSpeedLabel(text: string)
  {
    |text| >= |HighSpeedSuffix| && text[|text| - |HighSpeedSuffix|..] == HighSpeedSuffix
  }

  /**
   * Codes 0 to 11 are the standard ranges and codes 128 to 137 the
   * high-speed ones; no other code has a label.
   */
  lemma CurrentRangeCodes(crByte: int)
    ensures CurrentRangeLabel(crByte).Some? <==> 0 <= crByte <= 11 || HighSpeedBase <= crByte <= HighSpeedBase + 9
    ensures CurrentRangeLabel(0) == Some("100nA") && CurrentRangeLabel(11) == Some("15mA")
    ensures CurrentRangeLabel(HighSpeedBase) == Some("100nA (High speed)")
    ensures CurrentRangeLabel(HighSpeedBase + 9) == Some("5mA (High speed)")
  {
    assert HighSpeedRanges[0] + HighSpeedSuffix == "100nA (High speed)";
    assert HighSpeedRanges[9] + HighSpeedSuffix == "5mA (High speed)";
  }

  /** Every label of the standard table, code by code. */
  lemma StandardRangeTable()
    ensures CurrentRangeLabel(0) == Some("100nA") && CurrentRangeLabel(1) == Some("2uA")
    ensures CurrentRangeLabel(2) == Some("4uA") && CurrentRangeLabel(3) == Some("8uA")
    ensures CurrentRangeLabel(4) == Some("16uA") && CurrentRangeLabel(5) == Some("32uA")
    ensures CurrentRangeLabel(6) == Some("63uA") && CurrentRangeLabel(7) == Some("125uA")
    ensures CurrentRangeLabel(8) == Some("250uA") && CurrentRangeLabel(9) == Some("500uA")
    ensures CurrentRangeLabel(10) == Some("1mA") && CurrentRangeLabel(11) == Some("15mA")
  {
  }

  /** Every label of the high-speed table, code by code: the range, then " (High speed)". */
  lemma HighSpeedRangeTable()
    ensures CurrentRangeLabel(128) == Some("100nA" + HighSpeedSuffix) && CurrentRangeLabel(129) == Some("1uA" + HighSpeedSuffix)
    ensures CurrentRangeLabel(130) == Some("6uA" + HighSpeedSuffix) && CurrentRangeLabel(131) == Some("13uA" + HighSpeedSuffix)
    ensures CurrentRangeLabel(132) == Some("25uA" + HighSpeedSuffix) && CurrentRangeLabel(133) == Some("50uA" + HighSpeedSuffix)
    ensures CurrentRangeLabel(134) == Some("100uA" + HighSpeedSuffix) && CurrentRangeLabel(135) == Some("200uA" + HighSpeedSuffix)
    ensures CurrentRangeLabel(136) == Some("1mA" + HighSpeedSuffix) && CurrentRangeLabel(137) == Some("5mA" + HighSpeedSuffix)
  {
    HighSpeedLabel(0, "100nA");
    HighSpeedLabel(1, "1uA");
    HighSpeedLabel(2, "6uA");
    HighSpeedLabel(3, "13uA");
    HighSpeedLabel(4, "25uA");
    HighSpeedLabel(5, "50uA");
    HighSpeedLabel(6, "100uA");
    HighSpeedLabel(7, "200uA");
    HighSpeedLabel(8, "1mA");
    HighSpeedLabel(9, "5mA");
  }

  lemma HighSpeedLabel(i: nat, range: string)
    requires i < |HighSpeedRanges| && range == HighSpeedRanges[i]
    ensures CurrentRangeLabel(HighSpeedBase + i) == Some(range + HighSpeedSuffix)
  {
  }

  /** The label says "(High speed)" exactly for the codes from 128 up. */
  lemma HighSpeedLabels(crByte: int)
    ensures CurrentRangeLabel(crByte).Some? ==>
              (IsHighSpeedLabel(CurrentRangeLabel(crByte).value) <==> crByte >= HighSpeedBase)
  {
    if 0 <= crByte < |StandardRanges| {
      // every standard label is shorter than the suffix
      assert forall i :: 0 <= i < |StandardRanges| ==> |StandardRanges[i]| < |HighSpeedSuffix|;
    } else if HighSpeedBase <= crByte < HighSpeedBase + |HighSpeedRanges| {
      var text := HighSpeedRanges[crByte - HighSpeedBase] + HighSpeedSuffix;
      assert text[|text| - |HighSpeedSuffix|..] == HighSpeedSuffix;
    }
  }

  /** At most two characters after the tag are read as the code. */
  const CurrentRangeDigits: nat := 2

  /** The code a current-range field carries: up to two hexadecimal characters after the tag. */
  function CurrentRangeCode(metaDataCR: string): (crByte: nat)
    requires |metaDataCR| >= 1
    ensures crByte < 256
  {
    var crBytePackage := metaDataCR[1..if |metaDataCR| < 1 + CurrentRangeDigits then |metaDataCR| else 1 + CurrentRangeDigits];
    assert Pow(16, |crBytePackage|) <= 256 by {
      PowMonotone(16, |crBytePackage|, CurrentRangeDigits);
    }
    ParseHex(crBytePackage)
  }

  /**
   * The current range of a current-range field: a label exactly for the
   * codes of the two tables, and a high-speed label exactly for the codes
   * from 128 up.
   */
  function GetCurrentRangeFromPackage(metaDataCR: string): (currentRange: Option<string>)
    requires |metaDataCR| >= 1
    ensures var crByte := CurrentRangeCode(metaDataCR);
            currentRange.Some? <==> crByte <= 11 || HighSpeedBase <= crByte <= HighSpeedBase + 9
    ensures currentRange.Some? ==>
              (IsHighSpeedLabel(currentRange.value) <==> CurrentRangeCode(metaDataCR) >= HighSpeedBase)
  {
    CurrentRangeCodes(CurrentRangeCode(metaDataCR));
    HighSpeedLabels(CurrentRangeCode(metaDataCR));
    CurrentRangeLabel(CurrentRangeCode(metaDataCR))
  }

  /** A high-speed code, and a standard one followed by a third digit that is not read. */
  lemma CurrentRangeExamples()
    ensures GetCurrentRangeFromPackage("288") == Some("1mA (High speed)")
    ensures GetCurrentRangeFromPackage("20b") == Some("15mA")
  {
    assert "288"[1..3] == "88";
    assert HexPrefix("88") == "88";
    assert HighSpeedRanges[8] + HighSpeedSuffix == "1mA (High speed)";
    assert "20b"[1..3] == "0b";
    assert HexPrefix("0b") == "0b";
  }

  /** Only the two characters after the tag count, a missing code reads as 0, and 0xFF has no label. */
  lemma CurrentRangeShortAndUnknown()
    ensures GetCurrentRangeFromPackage("2012") == Some("2uA")
    ensures GetCurrentRangeFromPackage("2") == Some("100nA")
    ensures GetCurrentRangeFromPackage("2ff") == None
  {
    assert "2012"[1..3] == "01";
    assert HexPrefix("01") == "01";
    assert "2"[1..1] == [];
    assert "2ff"[1..3] == "ff";
    assert HexPrefix("ff") == "ff";
  }

}
