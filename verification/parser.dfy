/**
 * Decoding of one data-point line ("P" followed by parameters) into the
 * measurement record.
 *
 * The functions below give the meaning of each step on values; the class
 * `MeasureData` holds the record the C code updates field by field, and its
 * methods run the same token loops and are proved to end in the state the
 * functions describe.
 */
module Parser {
  import opened Wrappers
  import opened Numeric
  import opened Values
  import opened Tokenizer
  import opened Metadata
  import opened MSComm

  /** The identifier of the potential parameter (`MSCR_VT_CELL_SET_POTENTIAL`). */
  const PotentialId: string := "da"

  /** The identifier of the current parameter (`MSCR_VT_CURRENT`). */
  const CurrentId: string := "ba"

  /** Metadata tags: reading status, current range, noise. */
  const StatusTag: char := '1'
  const CurrentRangeTag: char := '2'
  const NoiseTag: char := '4'

  /** Where the metadata of a parameter starts: after the identifier, the 7 digits and the prefix. */
  const MetadataOffset: nat := 10

  /** Number of characters copied out of a parameter for its value field. */
  const ValueFieldWidth: nat := MantissaDigits + 1

  /**
   * The record a data line updates. `None` stands for a field that no line
   * has set yet; for the current range it is also what an unknown code gives.
   */
  datatype Reading = Reading(
    potential: Option<Value>,
    current: Option<Value>,
    status: Option<Status>,
    cr: Option<string>)

  const Unset: Reading := Reading(None, None, None, None)

  /**
   * `strncpy(dst, s, width)`: the first `width` characters of `s`, padded
   * with '\0'. strncpy also stops at a '\0' inside `s`; this copy does not,
   * which changes nothing for the parameters it is given: they come from a
   * C string (`InPlace.CStringAt` stops at the first '\0') or from a line
   * the reader stored, and `LineReader.BytesHaveNoNul` shows those hold no
   * '\0'.
   */
  function CopyField(s: string, width: nat): (field: string)
    ensures |field| == width
    ensures forall i :: 0 <= i < width ==> field[i] == if i < |s| then s[i] else '\0'
  {
    if width == 0 then []
    else if s == [] then ['\0'] + CopyField([], width - 1)
    else [s[0]] + CopyField(s[1..], width - 1)
  }

  predicate HasIdentifier(param: string, id: string)
  {
    |param| >= 2 && param[..2] == id
  }

  predicate HasTag(metaData: string, tag: char)
  {
    |metaData| >= 1 && metaData[0] == tag
  }

  /**
   * The value a parameter carries: the 8 characters after its identifier,
   * so the prefix is the tenth character, and a shorter parameter has no
   * prefix and scales to zero.
   */
  function ParamValue(param: string): (v: Value)
    requires |param| >= 2
    ensures -(OffsetValue as int) <= v.mantissa < OffsetValue
    ensures v.scale == if |param| >= MetadataOffset then GetUnitPrefixValue(param[MetadataOffset - 1]) else ZeroScale
  {
    GetParameterValue(CopyField(param[2..], ValueFieldWidth))
  }

  // ---------------------------------------------------------------------
  // Meaning of the metadata loop

  /** One metadata field: a status or current-range field overwrites its member, any other is ignored. */
  function ApplyMetaToken(d: Reading, metaData: string): Reading
  {
    if HasTag(metaData, StatusTag) then d.(status := GetReadingStatusFromPackage(metaData))
    else if HasTag(metaData, CurrentRangeTag) then d.(cr := GetCurrentRangeFromPackage(metaData))
    else d
  }

  function ApplyMetaTokens(d: Reading, tokens: seq<string>): Reading
    decreases |tokens|
  {
    if tokens == [] then d else ApplyMetaTokens(ApplyMetaToken(d, tokens[0]), tokens[1..])
  }

  function ApplyMetadata(d: Reading, metaDataParams: string): Reading
  {
    ApplyMetaTokens(d, Tokens(metaDataParams, MetaDataDelimiters))
  }

  /** The last token with a given tag, if any. */
  function LastTagged(tokens: seq<string>, tag: char): (last: Option<string>)
    ensures last.Some? ==> last.value in tokens && HasTag(last.value, tag)
    ensures last.Some? ==> exists i :: 0 <= i < |tokens| && tokens[i] == last.value &&
                                       forall j :: i < j < |tokens| ==> !HasTag(tokens[j], tag)
    ensures last.None? ==> forall t :: t in tokens ==> !HasTag(t, tag)
    decreases |tokens|
  {
    if tokens == [] then None
    else
      var later := LastTagged(tokens[1..], tag);
      if later.Some? then
        var i :| 0 <= i < |tokens[1..]| && tokens[1..][i] == later.value &&
                 forall j :: i < j < |tokens[1..]| ==> !HasTag(tokens[1..][j], tag);
        assert tokens[i + 1] == later.value;
        assert forall j :: i + 1 < j < |tokens| ==> tokens[j] == tokens[1..][j - 1];
        later
      else if HasTag(tokens[0], tag) then
        assert forall j :: 0 < j < |tokens| ==> tokens[j] in tokens[1..];
        Some(tokens[0])
      else None
  }

  /**
   * The last status field decides the status and the last current-range
   * field the current range; with no such field the member keeps its old
   * value, and the two values are never touched.
   */
  lemma {:induction false} MetaTokensLastTagWins(d: Reading, tokens: seq<string>)
    ensures var r := ApplyMetaTokens(d, tokens);
            r.potential == d.potential && r.current == d.current &&
            r.status == (match LastTagged(tokens, StatusTag)
                         case None => d.status
                         case Some(t) => GetReadingStatusFromPackage(t)) &&
            r.cr == (match LastTagged(tokens, CurrentRangeTag)
                     case None => d.cr
                     case Some(t) => GetCurrentRangeFromPackage(t))
    decreases |tokens|
  {
    if tokens != [] {
      MetaTokensLastTagWins(ApplyMetaToken(d, tokens[0]), tokens[1..]);
    }
  }

  lemma MetadataLastTagWins(d: Reading, metaDataParams: string)
    ensures var r := ApplyMetadata(d, metaDataParams);
            var tokens := Tokens(metaDataParams, MetaDataDelimiters);
            r.potential == d.potential && r.current == d.current &&
            r.status == (match LastTagged(tokens, StatusTag)
                         case None => d.status
                         case Some(t) => GetReadingStatusFromPackage(t)) &&
            r.cr == (match LastTagged(tokens, CurrentRangeTag)
                     case None => d.cr
                     case Some(t) => GetCurrentRangeFromPackage(t))
  {
    MetaTokensLastTagWins(d, Tokens(metaDataParams, MetaDataDelimiters));
  }

  // ---------------------------------------------------------------------
  // Meaning of the parameter loop

  /**
   * One parameter: "da" sets the potential and "ba" the current; a
   * parameter long enough to carry metadata then has its metadata applied.
   */
  function ApplyParam(d: Reading, param: string): Reading
  {
    var d :=
      if HasIdentifier(param, PotentialId) then d.(potential := Some(ParamValue(param)))
      else if HasIdentifier(param, CurrentId) then d.(current := Some(ParamValue(param)))
      else d;
    if |param| >= MetadataOffset then ApplyMetadata(d, param[MetadataOffset..]) else d
  }

  function ApplyParams(d: Reading, params: seq<string>): Reading
    decreases |params|
  {
    if params == [] then d else ApplyParams(ApplyParam(d, params[0]), params[1..])
  }

  /** Index of the first 'P' (`strchr`). */
  function IndexOf(line: string, c: char): (i: nat)
    requires c in line
    ensures i < |line| && line[i] == c && c !in line[..i]
  {
    if line[0] == c then 0
    else
      assert c in line[1..] by {
        var k :| 0 <= k < |line| && line[k] == c;
        assert line[1..][k - 1] == c;
      }
      var i := 1 + IndexOf(line[1..], c);
      assert line[..i] == [line[0]] + line[1..][..i - 1];
      i
  }

  /** The text after the first 'P': the parameters of a data line. */
  function PackageLine(line: string): string
    requires 'P' in line
  {
    line[IndexOf(line, 'P') + 1..]
  }

  /** A data line: the parameters after its first 'P', split at ' ', ';' and '\n'. */
  function ApplyResponse(d: Reading, line: string): Reading
    requires 'P' in line
  {
    ApplyParams(d, Tokens(PackageLine(line), ParamDelimiters))
  }

  /** A parameter changes only the members it names. */
  lemma ParamWritesOnlyItsFields(d: Reading, param: string)
    ensures var r := ApplyParam(d, param);
            (!HasIdentifier(param, PotentialId) ==> r.potential == d.potential) &&
            (!HasIdentifier(param, CurrentId) ==> r.current == d.current) &&
            (HasIdentifier(param, PotentialId) ==> r.potential == Some(ParamValue(param))) &&
            (HasIdentifier(param, CurrentId) ==> r.current == Some(ParamValue(param))) &&
            (|param| < MetadataOffset ==> r.status == d.status && r.cr == d.cr)
  {
    var d1 :=
      if HasIdentifier(param, PotentialId) then d.(potential := Some(ParamValue(param)))
      else if HasIdentifier(param, CurrentId) then d.(current := Some(ParamValue(param)))
      else d;
    if |param| >= MetadataOffset {
      MetadataLastTagWins(d1, param[MetadataOffset..]);
    }
  }

  /** The last parameter with a given identifier, if any. */
  function LastWithIdentifier(params: seq<string>, id: string): (last: Option<string>)
    ensures last.Some? ==> last.value in params && HasIdentifier(last.value, id)
    ensures last.Some? ==> exists i :: 0 <= i < |params| && params[i] == last.value &&
                                       forall j :: i < j < |params| ==> !HasIdentifier(params[j], id)
    ensures last.None? ==> forall p :: p in params ==> !HasIdentifier(p, id)
    decreases |params|
  {
    if params == [] then None
    else
      var later := LastWithIdentifier(params[1..], id);
      if later.Some? then
        var i :| 0 <= i < |params[1..]| && params[1..][i] == later.value &&
                 forall j :: i < j < |params[1..]| ==> !HasIdentifier(params[1..][j], id);
        assert params[i + 1] == later.value;
        assert forall j :: i + 1 < j < |params| ==> params[j] == params[1..][j - 1];
        later
      else if HasIdentifier(params[0], id) then
        assert forall j :: 0 < j < |params| ==> params[j] in params[1..];
        Some(params[0])
      else None
  }

  /**
   * Over a whole line the last "da" parameter decides the potential and the
   * last "ba" parameter the current; without one the member keeps its value.
   */
  lemma {:induction false} LastParamWins(d: Reading, params: seq<string>)
    ensures var r := ApplyParams(d, params);
            r.potential == (match LastWithIdentifier(params, PotentialId)
                            case None => d.potential
                            case Some(p) => Some(ParamValue(p))) &&
            r.current == (match LastWithIdentifier(params, CurrentId)
                          case None => d.current
                          case Some(p) => Some(ParamValue(p)))
    decreases |params|
  {
    if params != [] {
      ParamWritesOnlyItsFields(d, params[0]);
      LastParamWins(ApplyParam(d, params[0]), params[1..]);
    }
  }

  /**
   * Over a whole data line: the last "da" parameter after the 'P' decides the
   * potential and the last "ba" one the current; without one the value is kept.
   */
  lemma ResponseLastParamWins(d: Reading, line: string)
    requires 'P' in line
    ensures var r := ApplyResponse(d, line);
            var params := Tokens(PackageLine(line), ParamDelimiters);
            r.potential == (match LastWithIdentifier(params, PotentialId)
                            case None => d.potential
                            case Some(p) => Some(ParamValue(p))) &&
            r.current == (match LastWithIdentifier(params, CurrentId)
                          case None => d.current
                          case Some(p) => Some(ParamValue(p)))
  {
    LastParamWins(d, Tokens(PackageLine(line), ParamDelimiters));
  }

  /** The two identifiers the decoder knows name the set-potential and current variable types. */
  lemma IdentifiersAreVarTypes()
    ensures VarTypeOfName(PotentialId) == Some(CellSetPotential)
    ensures VarTypeOfName(CurrentId) == Some(Current)
    ensures StrToVt(PotentialId) == VarTypeCode(CellSetPotential)
    ensures StrToVt(CurrentId) == VarTypeCode(Current)
  {
  }

  /**
   * Space both separates parameters and is the "times one" prefix: a
   * parameter whose prefix is a space is cut before it, so its value field
   * ends in '\0' and scales to zero.
   */
  lemma SpacePrefixIsCut(digits: string, rest: string)
    requires |digits| == MantissaDigits && NoDelimiter(digits, ParamDelimiters)
    ensures var line := PotentialId + digits + " " + rest;
            var params := Tokens(line, ParamDelimiters);
            |params| >= 1 && params[0] == PotentialId + digits &&
            ApplyParam(Unset, params[0]).potential == Some(Value(ParseHex(digits) - OffsetValue, ZeroScale))
  {
    var line := PotentialId + digits + " " + rest;
    var param := PotentialId + digits;
    assert line[0..|param|] == param;
    assert line[|param|] == ' ';
    assert NoDelimiter(param, ParamDelimiters) by {
      forall i | 0 <= i < |param|
        ensures param[i] !in ParamDelimiters
      {
        if i >= 2 {
          assert param[i] == digits[i - 2];
        }
      }
    }
    CutAtFirstDelimiter(line, 0, param, ParamDelimiters);
    var field := CopyField(param[2..], ValueFieldWidth);
    assert param[2..] == digits;
    assert field == digits + ['\0'];
    assert field[..MantissaDigits] == digits;
    MissingPrefixScalesToZero(digits);
  }

  /**
   * Round trip through a parameter: an identifier, an encoded value and any
   * metadata after it decode back to the value the instrument encoded.
   */
  lemma ParamValueRoundTrip(id: string, mantissa: int, prefix: char, metaData: string)
    requires |id| == 2 && -(OffsetValue as int) <= mantissa < OffsetValue
    ensures ParamValue(id + EncodeValue(mantissa, prefix) + metaData) == Value(mantissa, GetUnitPrefixValue(prefix))
  {
    var field := EncodeValue(mantissa, prefix);
    var param := id + field + metaData;
    assert param[2..] == field + metaData;
    assert CopyField(param[2..], ValueFieldWidth) == field;
    DecodeEncode(mantissa, prefix);
  }

  /** Empty metadata (a parameter of exactly ten characters) changes nothing. */
  lemma NoMetadataChangesNothing(d: Reading)
    ensures ApplyMetadata(d, []) == d
  {
    PlainTextIsOneToken([], MetaDataDelimiters);
  }

  /** The tokens of a line holding a potential cut at its space prefix, then a current. */
  lemma TwoParamTokens(potential: string, current: string)
    requires NoDelimiter(potential, ParamDelimiters) && NoDelimiter(current, ParamDelimiters)
    ensures Tokens(potential + " ;" + current + ";\n", ParamDelimiters) == [potential, "", current, "", ""]
  {
    var s := potential + " ;" + current + ";\n";
    assert s == potential + [' '] + ([] + [';'] + (current + [';'] + ([] + ['\n'] + [])));
    TokensOfCut([], '\n', [], ParamDelimiters);
    PlainTextIsOneToken([], ParamDelimiters);
    TokensOfCut(current, ';', [] + ['\n'] + [], ParamDelimiters);
    TokensOfCut([], ';', current + [';'] + ([] + ['\n'] + []), ParamDelimiters);
    TokensOfCut(potential, ' ', [] + [';'] + (current + [';'] + ([] + ['\n'] + [])), ParamDelimiters);
  }

  /** Empty parameters, as between two adjacent delimiters, change nothing. */
  lemma {:induction false} EmptyParamsChangeNothing(d: Reading, n: nat)
    ensures ApplyParams(d, seq(n, _ => "")) == d
  {
    NoMetadataChangesNothing(d);
    if n > 0 {
      assert seq(n, _ => "")[1..] == seq(n - 1, _ => "");
      EmptyParamsChangeNothing(d, n - 1);
    }
  }

  /** A nine-character potential parameter sets the potential, with scale zero, and nothing else. */
  lemma PotentialParamEffect(d: Reading, digits: string)
    requires |digits| == MantissaDigits
    ensures ApplyParam(d, PotentialId + digits) ==
            d.(potential := Some(Value(ParseHex(digits) - OffsetValue, ZeroScale)))
  {
    var param := PotentialId + digits;
    assert param[..2] == PotentialId;
    assert param[2..] == digits;
    assert CopyField(digits, ValueFieldWidth)[..MantissaDigits] == digits;
  }

  /** The value of a parameter that is an identifier and exactly one value field. */
  lemma ParamValueOfField(id: string, field: string)
    requires |id| == 2 && |field| == ValueFieldWidth
    ensures ParamValue(id + field) == GetParameterValue(field)
  {
    assert (id + field)[2..] == field;
    assert CopyField(field, ValueFieldWidth) == field;
  }

  /** A ten-character current parameter sets the current, scaled by its prefix, and nothing else. */
  lemma CurrentParamEffect(d: Reading, digits: string, prefix: char)
    requires |digits| == MantissaDigits
    ensures ApplyParam(d, CurrentId + (digits + [prefix])) ==
            d.(current := Some(Value(ParseHex(digits) - OffsetValue, GetUnitPrefixValue(prefix))))
  {
    var field := digits + [prefix];
    var param := CurrentId + field;
    assert param[..2] == CurrentId && !HasIdentifier(param, PotentialId);
    ParamValueOfField(CurrentId, field);
    assert field[..MantissaDigits] == digits && field[MantissaDigits] == prefix;
    assert |param| == MetadataOffset && param[MetadataOffset..] == [];
    var d1 := d.(current := Some(GetParameterValue(field)));
    NoMetadataChangesNothing(d1);
  }

  /** A line that starts with the package marker: everything after it is decoded. */
  lemma ResponseAfterMarker(d: Reading, body: string)
    ensures ApplyResponse(d, "P" + body) == ApplyParams(d, Tokens(body, ParamDelimiters))
  {
    assert IndexOf("P" + body, 'P') == 0;
    assert ("P" + body)[1..] == body;
  }

  /** Decoding the parameters of a potential, a current and the empty tokens between them. */
  lemma {:induction false} TwoParamEffect(d: Reading, potentialDigits: string, currentDigits: string, prefix: char)
    requires |potentialDigits| == MantissaDigits && |currentDigits| == MantissaDigits
    ensures ApplyParams(d, [PotentialId + potentialDigits, "", CurrentId + (currentDigits + [prefix]), "", ""])
            == d.(potential := Some(Value(ParseHex(potentialDigits) - OffsetValue, ZeroScale)),
                  current := Some(Value(ParseHex(currentDigits) - OffsetValue, GetUnitPrefixValue(prefix))))
  {
    var p1 := PotentialId + potentialDigits;
    var p2 := CurrentId + (currentDigits + [prefix]);
    var d1 := d.(potential := Some(Value(ParseHex(potentialDigits) - OffsetValue, ZeroScale)));
    var d2 := d1.(current := Some(Value(ParseHex(currentDigits) - OffsetValue, GetUnitPrefixValue(prefix))));
    PotentialParamEffect(d, potentialDigits);
    CurrentParamEffect(d1, currentDigits, prefix);
    EmptyParamsChangeNothing(d1, 1);
    EmptyParamsChangeNothing(d2, 2);
    var params := [p1, "", p2, "", ""];
    assert params[1..] == [""] + [p2, "", ""] && [p2, "", ""][1..] == seq(2, _ => "");
    assert ApplyParams(d, params) == ApplyParams(d1, params[1..]);
    assert ApplyParams(d1, [""] + [p2, "", ""]) == ApplyParams(d1, [p2, "", ""]);
    assert ApplyParams(d1, [p2, "", ""]) == ApplyParams(d2, seq(2, _ => ""));
  }

  /**
   * A data line with a potential whose prefix is a space and a current:
   * the potential's prefix is cut off by the tokenizer, so it scales to zero,
   * and the current keeps its prefix; status and range stay as they were.
   */
  lemma TwoParamLine(d: Reading, potentialDigits: string, currentDigits: string, prefix: char)
    requires |potentialDigits| == MantissaDigits && |currentDigits| == MantissaDigits
    requires NoDelimiter(potentialDigits, ParamDelimiters)
    requires NoDelimiter(currentDigits + [prefix], ParamDelimiters)
    ensures ApplyResponse(d, "P" + ((PotentialId + potentialDigits) + " ;" + (CurrentId + (currentDigits + [prefix])) + ";\n"))
            == d.(potential := Some(Value(ParseHex(potentialDigits) - OffsetValue, ZeroScale)),
                  current := Some(Value(ParseHex(currentDigits) - OffsetValue, GetUnitPrefixValue(prefix))))
  {
    var p1 := PotentialId + potentialDigits;
    var p2 := CurrentId + (currentDigits + [prefix]);
    ResponseAfterMarker(d, p1 + " ;" + p2 + ";\n");
    NoDelimiterAppend(PotentialId, potentialDigits, ParamDelimiters);
    NoDelimiterAppend(CurrentId, currentDigits + [prefix], ParamDelimiters);
    TwoParamTokens(p1, p2);
    TwoParamEffect(d, potentialDigits, currentDigits, prefix);
  }

  /** The tokens of a line holding a potential cut at its space prefix, then two more parameters. */
  lemma ThreeParamTokens(potential: string, middle: string, last: string)
    requires NoDelimiter(potential, ParamDelimiters) && NoDelimiter(middle, ParamDelimiters)
    requires NoDelimiter(last, ParamDelimiters)
    ensures Tokens(potential + " ;" + middle + ";" + last + ";\n", ParamDelimiters) == [potential, "", middle, last, "", ""]
  {
    ThreeParamText(potential, middle, last);
    LastParamTokens(last);
    SpaceCutTokens(potential, middle, last + ";\n", [last, "", ""]);
    assert [potential, "", middle] + [last, "", ""] == [potential, "", middle, last, "", ""];
  }

  /** A token cut at a space, the empty token before the ';' and one more token in front of `tail`. */
  lemma SpaceCutTokens(potential: string, middle: string, tail: string, ts: seq<string>)
    requires NoDelimiter(potential, ParamDelimiters) && NoDelimiter(middle, ParamDelimiters)
    requires Tokens(tail, ParamDelimiters) == ts
    ensures Tokens(potential + [' '] + ([';'] + (middle + [';'] + tail)), ParamDelimiters) == [potential, "", middle] + ts
  {
    var mid := middle + [';'] + tail;
    TokensOfCut(middle, ';', tail, ParamDelimiters);
    EmptyTokenThen(mid, [middle] + ts);
    TokensOfCut(potential, ' ', [';'] + mid, ParamDelimiters);
  }

  lemma ThreeParamText(potential: string, middle: string, last: string)
    ensures potential + " ;" + middle + ";" + last + ";\n" == potential + [' '] + ([';'] + (middle + [';'] + (last + ";\n")))
  {
  }

  /** A ';' in front of a text adds one empty token. */
  lemma EmptyTokenThen(rest: string, ts: seq<string>)
    requires Tokens(rest, ParamDelimiters) == ts
    ensures Tokens([';'] + rest, ParamDelimiters) == [""] + ts
  {
    TokensOfCut([], ';', rest, ParamDelimiters);
    assert [] + [';'] + rest == [';'] + rest;
  }

  /** The tokens of a last parameter and the ";\n" that ends the line. */
  lemma LastParamTokens(last: string)
    requires NoDelimiter(last, ParamDelimiters)
    ensures Tokens(last + ";\n", ParamDelimiters) == [last, "", ""]
  {
    assert last + ";\n" == last + [';'] + ([] + ['\n'] + []);
    TokensOfCut([], '\n', [], ParamDelimiters);
    PlainTextIsOneToken([], ParamDelimiters);
    TokensOfCut(last, ';', [] + ['\n'] + [], ParamDelimiters);
  }

  /** The value of a parameter is read from its first ten characters, whatever follows them. */
  lemma ParamValueWithRest(id: string, field: string, rest: string)
    requires |id| == 2 && |field| == ValueFieldWidth
    ensures ParamValue(id + field + rest) == GetParameterValue(field)
  {
    assert (id + field + rest)[2..] == field + rest;
    assert CopyField(field + rest, ValueFieldWidth) == field;
  }

  /** A value field's decoding: the hexadecimal digits less the bias, scaled by the prefix. */
  lemma FieldValue(digits: string, prefix: char)
    requires |digits| == MantissaDigits
    ensures GetParameterValue(digits + [prefix]) == Value(ParseHex(digits) - OffsetValue, GetUnitPrefixValue(prefix))
  {
    var field := digits + [prefix];
    assert field[..MantissaDigits] == digits && field[MantissaDigits] == prefix;
  }

  /** A metadata string never touches the potential, so setting it before or after is the same. */
  lemma MetadataCommutesWithPotential(d: Reading, metaDataParams: string, v: Option<Value>)
    ensures ApplyMetadata(d.(potential := v), metaDataParams) == ApplyMetadata(d, metaDataParams).(potential := v)
  {
    MetadataLastTagWins(d, metaDataParams);
    MetadataLastTagWins(d.(potential := v), metaDataParams);
  }

  /**
   * A line whose current parameter carries metadata and is followed by a
   * second potential: the last potential decides, the current is set and
   * the current's metadata applied.
   */
  lemma MetadataThenPotentialLine(d: Reading, pd: string, cd: string, x: char, m: string, pd2: string, x2: char)
    requires |pd| == MantissaDigits && |cd| == MantissaDigits && |pd2| == MantissaDigits
    requires AllHex(pd) && AllHex(cd) && AllHex(pd2)
    requires x !in ParamDelimiters && x2 !in ParamDelimiters && NoDelimiter(m, ParamDelimiters)
    ensures ApplyResponse(d, "P" + ((PotentialId + pd) + " ;" + (CurrentId + (cd + [x]) + "," + m) + ";" + (PotentialId + (pd2 + [x2])) + ";\n"))
            == ApplyMetadata(d.(potential := Some(Value(ParseHex(pd2) - OffsetValue, GetUnitPrefixValue(x2))),
                                current := Some(Value(ParseHex(cd) - OffsetValue, GetUnitPrefixValue(x)))),
                             "," + m)
  {
    var p1 := PotentialId + pd;
    var c1 := CurrentId + (cd + [x]) + "," + m;
    var p2 := PotentialId + (pd2 + [x2]);
    ResponseAfterMarker(d, p1 + " ;" + c1 + ";" + p2 + ";\n");
    ParamTextsHaveNoDelimiter(pd, cd, x, m, pd2, x2);
    ThreeParamTokens(p1, c1, p2);
    MetadataThenPotentialEffect(d, pd, cd, x, m, pd2, x2);
  }

  lemma ParamTextsHaveNoDelimiter(pd: string, cd: string, x: char, m: string, pd2: string, x2: char)
    requires AllHex(pd) && AllHex(cd) && AllHex(pd2)
    requires x !in ParamDelimiters && x2 !in ParamDelimiters && NoDelimiter(m, ParamDelimiters)
    ensures NoDelimiter(PotentialId + pd, ParamDelimiters)
    ensures NoDelimiter(CurrentId + (cd + [x]) + "," + m, ParamDelimiters)
    ensures NoDelimiter(PotentialId + (pd2 + [x2]), ParamDelimiters)
  {
    HexHasNoParamDelimiter(pd);
    HexHasNoParamDelimiter(cd);
    HexHasNoParamDelimiter(pd2);
    NoDelimiterAppend(PotentialId, pd, ParamDelimiters);
    NoDelimiterAppend(cd, [x], ParamDelimiters);
    NoDelimiterAppend(CurrentId, cd + [x], ParamDelimiters);
    NoDelimiterAppend(CurrentId + (cd + [x]), ",", ParamDelimiters);
    NoDelimiterAppend(CurrentId + (cd + [x]) + ",", m, ParamDelimiters);
    NoDelimiterAppend(pd2, [x2], ParamDelimiters);
    NoDelimiterAppend(PotentialId, pd2 + [x2], ParamDelimiters);
  }

  /** Decoding the six tokens of that line, one parameter at a time. */
  lemma MetadataThenPotentialEffect(d: Reading, pd: string, cd: string, x: char, m: string, pd2: string, x2: char)
    requires |pd| == MantissaDigits && |cd| == MantissaDigits && |pd2| == MantissaDigits
    ensures ApplyParams(d, [PotentialId + pd, "", CurrentId + (cd + [x]) + "," + m, PotentialId + (pd2 + [x2]), "", ""])
            == ApplyMetadata(d.(potential := Some(Value(ParseHex(pd2) - OffsetValue, GetUnitPrefixValue(x2))),
                                current := Some(Value(ParseHex(cd) - OffsetValue, GetUnitPrefixValue(x)))),
                             "," + m)
  {
    var p1 := PotentialId + pd;
    var c1 := CurrentId + (cd + [x]) + "," + m;
    var p2 := PotentialId + (pd2 + [x2]);
    var vc := Some(Value(ParseHex(cd) - OffsetValue, GetUnitPrefixValue(x)));
    var v2 := Some(Value(ParseHex(pd2) - OffsetValue, GetUnitPrefixValue(x2)));
    var d1 := d.(potential := Some(Value(ParseHex(pd) - OffsetValue, ZeroScale)));
    var d3 := ApplyMetadata(d1.(current := vc), "," + m);
    ApplyParamsCons(d, p1, ["", c1, p2, "", ""]);
    PotentialParamEffect(d, pd);
    ApplyParamsCons(d1, "", [c1, p2, "", ""]);
    assert ApplyParam(d1, "") == d1;
    ApplyParamsCons(d1, c1, [p2, "", ""]);
    MetadataThenPotentialMiddle(d1, cd, x, m, d3);
    SecondPotentialEffect(d3, pd2, x2);
    MetadataCommutesWithPotential(d.(current := vc), "," + m, v2);
    MetadataCommutesWithPotential(d.(current := vc), "," + m, d1.potential);
  }

  /** The last potential and the two empty tokens after it. */
  lemma SecondPotentialEffect(d: Reading, pd2: string, x2: char)
    requires |pd2| == MantissaDigits
    ensures ApplyParams(d, [PotentialId + (pd2 + [x2]), "", ""]) ==
            d.(potential := Some(Value(ParseHex(pd2) - OffsetValue, GetUnitPrefixValue(x2))))
  {
    var d4 := d.(potential := Some(Value(ParseHex(pd2) - OffsetValue, GetUnitPrefixValue(x2))));
    ApplyParamsCons(d, PotentialId + (pd2 + [x2]), ["", ""]);
    MetadataThenPotentialLast(d, pd2, x2);
    assert ["", ""] == seq(2, _ => "");
    EmptyParamsChangeNothing(d4, 2);
  }

  /** The parameters of a list are decoded first to last. */
  lemma ApplyParamsCons(d: Reading, param: string, rest: seq<string>)
    ensures ApplyParams(d, [param] + rest) == ApplyParams(ApplyParam(d, param), rest)
  {
    assert ([param] + rest)[1..] == rest;
  }

  /** The current parameter with metadata after its ten characters. */
  lemma MetadataThenPotentialMiddle(d: Reading, cd: string, x: char, m: string, r: Reading)
    requires |cd| == MantissaDigits
    requires r == ApplyMetadata(d.(current := Some(Value(ParseHex(cd) - OffsetValue, GetUnitPrefixValue(x)))), "," + m)
    ensures ApplyParam(d, CurrentId + (cd + [x]) + "," + m) == r
  {
    var c1 := CurrentId + (cd + [x]) + "," + m;
    assert c1 == CurrentId + (cd + [x]) + ("," + m);
    ParamValueWithRest(CurrentId, cd + [x], "," + m);
    FieldValue(cd, x);
    assert c1[..2] == CurrentId && c1[MetadataOffset..] == "," + m;
  }

  /** A ten-character potential parameter sets the potential, scaled by its prefix, and nothing else. */
  lemma MetadataThenPotentialLast(d: Reading, pd2: string, x2: char)
    requires |pd2| == MantissaDigits
    ensures ApplyParam(d, PotentialId + (pd2 + [x2])) ==
            d.(potential := Some(Value(ParseHex(pd2) - OffsetValue, GetUnitPrefixValue(x2))))
  {
    var p2 := PotentialId + (pd2 + [x2]);
    assert p2[..2] == PotentialId;
    ParamValueOfField(PotentialId, pd2 + [x2]);
    FieldValue(pd2, x2);
    assert p2[MetadataOffset..] == [];
    NoMetadataChangesNothing(d.(potential := Some(Value(ParseHex(pd2) - OffsetValue, GetUnitPrefixValue(x2)))));
  }

  /** Hexadecimal digits are never parameter delimiters. */
  lemma HexHasNoParamDelimiter(s: string)
    requires AllHex(s)
    ensures NoDelimiter(s, ParamDelimiters)
  {
  }

  /**
   * Line-level round trip: a line carrying an encoded potential (its prefix
   * a space, which the tokenizer cuts off) and an encoded current decodes to
   * the two mantissas, the potential with scale zero and the current with
   * its prefix's scale. With mantissas 0 and 50 and prefix 'u' this is the
   * line "Pda8000000 ;ba8000032u;\n".
   */
  lemma EncodedLineRoundTrip(d: Reading, potential: int, current: int, prefix: char)
    requires -(OffsetValue as int) <= potential < OffsetValue
    requires -(OffsetValue as int) <= current < OffsetValue
    requires prefix !in ParamDelimiters
    ensures var potentialDigits := HexDigits(potential + OffsetValue, MantissaDigits);
            ApplyResponse(d, "P" + ((PotentialId + potentialDigits) + " ;" + (CurrentId + EncodeValue(current, prefix)) + ";\n"))
            == d.(potential := Some(Value(potential, ZeroScale)),
                  current := Some(Value(current, GetUnitPrefixValue(prefix))))
  {
    var potentialDigits := HexDigits(potential + OffsetValue, MantissaDigits);
    var currentDigits := HexDigits(current + OffsetValue, MantissaDigits);
    HexHasNoParamDelimiter(potentialDigits);
    HexHasNoParamDelimiter(currentDigits);
    NoDelimiterAppend(currentDigits, [prefix], ParamDelimiters);
    HexPrefixOfDigits(potentialDigits);
    HexPrefixOfDigits(currentDigits);
    DigitsLine(d, potentialDigits, currentDigits, prefix, potential, current, EncodeValue(current, prefix));
  }

  /** `TwoParamLine` with the decoded mantissas named. */
  lemma DigitsLine(d: Reading, potentialDigits: string, currentDigits: string, prefix: char,
                   potential: int, current: int, currentField: string)
    requires |potentialDigits| == MantissaDigits && |currentDigits| == MantissaDigits
    requires NoDelimiter(potentialDigits, ParamDelimiters) && NoDelimiter(currentDigits + [prefix], ParamDelimiters)
    requires ParseHex(potentialDigits) - OffsetValue == potential && ParseHex(currentDigits) - OffsetValue == current
    requires currentField == currentDigits + [prefix]
    ensures ApplyResponse(d, "P" + ((PotentialId + potentialDigits) + " ;" + (CurrentId + currentField) + ";\n"))
            == d.(potential := Some(Value(potential, ZeroScale)),
                  current := Some(Value(current, GetUnitPrefixValue(prefix))))
  {
    TwoParamLine(d, potentialDigits, currentDigits, prefix);
  }

  // ---------------------------------------------------------------------
  // The record and the decoding loops

  class MeasureData {
    var potential: Option<Value>
    var current: Option<Value>
    var status: Option<Status>
    var cr: Option<string>

    function Snapshot(): Reading
      reads this
    {
      Reading(potential, current, status, cr)
    }

    constructor ()
      ensures Snapshot() == Unset
    {
      potential := None;
      current := None;
      status := None;
      cr := None;
    }

    /** Runs through the metadata fields of one parameter, keeping the last status and current range. */
    method ParseMetaDataValues(metaDataParams: string)
      modifies this
      ensures Snapshot() == ApplyMetadata(old(Snapshot()), metaDataParams)
    {
      var step := StrTokenize(metaDataParams, Some(0), MetaDataDelimiters);
      var metaData := step.token;
      var running: Option<nat> := step.next;
      while metaData.Some?
        invariant running.Some? ==> running.value <= |metaDataParams|
        invariant metaData.None? ==> running.None?
        invariant ApplyMetaTokens(Snapshot(),
                    (if metaData.Some? then [metaData.value] else []) +
                    TokensFrom(metaDataParams, running, MetaDataDelimiters))
                  == ApplyMetadata(old(Snapshot()), metaDataParams)
        decreases Remaining(metaDataParams, running) + (if metaData.Some? then 1 else 0)
      {
        var pending := [metaData.value] + TokensFrom(metaDataParams, running, MetaDataDelimiters);
        assert pending[1..] == TokensFrom(metaDataParams, running, MetaDataDelimiters);
        if HasTag(metaData.value, StatusTag) {
          status := GetReadingStatusFromPackage(metaData.value);
        } else if HasTag(metaData.value, CurrentRangeTag) {
          cr := GetCurrentRangeFromPackage(metaData.value);
        }
        step := StrTokenize(metaDataParams, running, MetaDataDelimiters);
        metaData := step.token;
        running := step.next;
      }
    }

    /**
     * Decodes one parameter: its value into the member its identifier names,
     * then its metadata when the parameter is long enough to carry any.
     */
    method ParseParam(param: string)
      modifies this
      ensures Snapshot() == ApplyParam(old(Snapshot()), param)
    {
      if HasIdentifier(param, PotentialId) {
        potential := Some(ParamValue(param));
      } else if HasIdentifier(param, CurrentId) {
        current := Some(ParamValue(param));
      }
      if |param| >= MetadataOffset {
        ParseMetaDataValues(param[MetadataOffset..]);
      }
    }

    /** Decodes every parameter after the first 'P' of a data line, in order. */
    method ParseResponse(responsePackageLine: string)
      requires 'P' in responsePackageLine
      modifies this
      ensures Snapshot() == ApplyResponse(old(Snapshot()), responsePackageLine)
    {
      var packageLine := PackageLine(responsePackageLine);
      var step := StrTokenize(packageLine, Some(0), ParamDelimiters);
      var param := step.token;
      var running: Option<nat> := step.next;
      while param.Some?
        invariant running.Some? ==> running.value <= |packageLine|
        invariant param.None? ==> running.None?
        invariant ApplyParams(Snapshot(),
                    (if param.Some? then [param.value] else []) +
                    TokensFrom(packageLine, running, ParamDelimiters))
                  == ApplyResponse(old(Snapshot()), responsePackageLine)
        decreases Remaining(packageLine, running) + (if param.Some? then 1 else 0)
      {
        var pending := [param.value] + TokensFrom(packageLine, running, ParamDelimiters);
        assert pending[1..] == TokensFrom(packageLine, running, ParamDelimiters);
        ParseParam(param.value);
        step := StrTokenize(packageLine, running, ParamDelimiters);
        param := step.token;
        running := step.next;
      }
    }
  }

}
