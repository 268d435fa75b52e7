# EmStat Pico line decoder, modelled in Dafny

This project models the receive side of the EmStat Pico C example
(`PSComm.c`): how bytes from the serial read function become one reply line,
how the line is classified, and how a data-point line ("P" followed by
parameters such as `da8000000 ;ba8000032u;`) is decoded into the measurement
record (potential, current, reading status, current range). It also models
the MethodSCRIPT definitions that the decoder relies on (`MSComm.h`): the
two-letter variable-type encoding, the variable-type, status and reply
constants, and the layout of a MethodSCRIPT package.

Layout, one module per file:

- `wrappers.dfy` (`Wrappers`): the `Option` type.
- `numeric.dfy` (`Numeric`):
  - hexadecimal digit strings and `strtol(..., 16)` as "value of the leading hex digits";
  - powers;
  - bitwise AND.
- `values.dfy` (`Values`):
  - the 7-digit biased mantissa;
  - the SI unit-prefix table;
  - the exact value type. A value is an integer mantissa with a decimal exponent, or a zero scale.
- `tokenizer.dfy` (`Tokenizer`): `strtokenize`. The cursor is an index, and `None` stands for NULL.
- `mscomm.dfy` (`MSComm`):
  - the `MSCR_STR_TO_VT` / `VARTYPE_TO_UINT8` encoding;
  - the `VarType`, `Status` and `Reply` enumerations;
  - the package structures.
- `metadata.dfy` (`Metadata`): the status cascade and the current-range table.
- `parser.dfy` (`Parser`):
  - the meaning of decoding, given as functions on values (`ApplyMetadata`, `ApplyParam`, `ApplyResponse`);
  - the class `MeasureData`, whose methods `ParseMetaDataValues`, `ParseParam` and `ParseResponse` update its fields in place. Each method is proved to end in the state the function describes.
- `linereader.dfy` (`LineReader`):
  - `ReadBuf`, which fills an `array<char>` of 100 characters;
  - `ReceivePackage`.

  Both are proved against the recursive specification `Scan` / `ReadLine`.
- `inplace.dfy` (`InPlace`): the decoding loops as the C text runs them on the line buffer.
  - `strtokenize` writes '\0' over each delimiter it finds.
  - `ParseParam` starts the metadata loop ten characters after the token's start, however long the token is.

  Lemmas there show where this departs from the functions of `Parser` (see "## Findings").

The serial port is a parameter: the sequence of values the read function
returns, in order. Values of zero or less are skipped, as in the C loop.

Where the code behaves differently from how the protocol is described, the
model follows the code:

- A mantissa that is not all hex digits is parsed the way `strtol` does it: as the value of its leading hex digits. No error is raised.
- A prefix character outside the table gives scale zero. It is not an error.
- An unknown current-range code gives no label (`None`). The C function returns an uninitialised `char*` there.
- A line of 99 bytes without a newline gives CODE_NULL.
- A data line is decoded into the single record `MeasureData`, not into a list of subpackages.
  - In a line such as `Pda8000000 ;ba8000032u;\n`, the space after the potential is a delimiter, so the potential's prefix is cut off and its scale is zero. See `Parser.SpacePrefixIsCut` and `Parser.EncodedLineRoundTrip`.
  - The value of that potential is 0 all the same, because its mantissa is the bias point.
- The tokenizer round trip holds exactly: re-joining the tokens with the separators they were cut at gives back the input.

## Model

| member | source | states |
|---|---|---|
| Numeric.DigitValue | EmStatPicoExample-C/EmStatPicoCodeExample/PalmSensComm/PSComm.c:163 | a base-16 digit (0-9, a-f, A-F) has a value below 16 |
| Numeric.DigitChar | EmStatPicoExample-C/EmStatPicoCodeExample/PalmSensComm/PSComm.c:163 | the digit written for a value below 16 is a hex digit that reads back as that value |
| Numeric.HexValue | EmStatPicoExample-C/EmStatPicoCodeExample/PalmSensComm/PSComm.c:163 | n hex digits denote a number below 16^n |
| Numeric.HexPrefix | EmStatPicoExample-C/EmStatPicoCodeExample/PalmSensComm/PSComm.c:163 | the characters strtol consumes are a prefix of the text, all hex digits, and are followed by a non-digit or the end |
| Numeric.ParseHex | EmStatPicoExample-C/EmStatPicoCodeExample/PalmSensComm/PSComm.c:163 | strtol base 16 on a field of n characters gives a value below 16^n |
| Numeric.HexPrefixOfDigits | EmStatPicoExample-C/EmStatPicoCodeExample/PalmSensComm/PSComm.c:163 | a field made only of hex digits is consumed whole |
| Numeric.HexPrefixStops | EmStatPicoExample-C/EmStatPicoCodeExample/PalmSensComm/PSComm.c:228 | parsing stops at the first character that is not a hex digit |
| Numeric.HexDigits | EmStatPicoExample-C/EmStatPicoCodeExample/PalmSensComm/PSComm.c:163 | every number below 16^w has a w-digit spelling that reads back as that number (inverse of HexValue) |
| Numeric.PowMonotone | EmStatPicoExample-C/EmStatPicoCodeExample/PalmSensComm/PSComm.c:247 | fewer digits never allow a larger value (16^i <= 16^j for i <= j) |
| Numeric.BitAndSingleBit | EmStatPicoExample-C/EmStatPicoCodeExample/PalmSensComm/PSComm.c:229-236 | masking with 2^k gives 2^k when bit k is set and 0 otherwise |
| Values.UnitPrefixTable | EmStatPicoExample-C/EmStatPicoCodeExample/PalmSensComm/PSComm.c:168-200 | a f p n u m space K M G T P E scale by 10^-18 ... 10^18 in steps of 10^3, and every other character scales by 0 |
| Values.GetUnitPrefixValue | EmStatPicoExample-C/EmStatPicoCodeExample/PalmSensComm/PSComm.c:168-200 | the scale is zero iff the character is not one of the 13 prefixes; a prefix scales by 10^e with e a multiple of 3 between -18 and 18 |
| Values.GetParameterValue | EmStatPicoExample-C/EmStatPicoCodeExample/PalmSensComm/PSComm.c:156-166 | the unbiased mantissa of any 8-character field lies in [-0x8000000, 0x8000000) |
| Values.EncodeValue | EmStatPicoExample-C/EmStatPicoCodeExample/PalmSensComm/PSComm.c:156-166 | the field the instrument sends: 7 hex digits, then the prefix character |
| Values.DecodeEncode | EmStatPicoExample-C/EmStatPicoCodeExample/PalmSensComm/PSComm.c:156-166 | round trip: decoding an encoded field gives back the mantissa, with the prefix's scale |
| Values.BiasPointIsZero | EmStatPicoExample-C/EmStatPicoCodeExample/PalmSensComm/PSComm.c:164 | mantissa "8000000" decodes to 0 for every prefix |
| Values.MissingPrefixScalesToZero | EmStatPicoExample-C/EmStatPicoCodeExample/PalmSensComm/PSComm.c:158 | a field whose prefix position holds '\0' has scale zero, so its magnitude is 0 |
| Tokenizer.FindDelimiter | EmStatPicoExample-C/EmStatPicoCodeExample/PalmSensComm/PSComm.c:120 | strpbrk: the first delimiter at or after the cursor, with none before it; or none at all |
| Tokenizer.StrTokenize | EmStatPicoExample-C/EmStatPicoCodeExample/PalmSensComm/PSComm.c:115-132 | NULL cursor gives NULL. Otherwise the token has no delimiter, and either token + [delimiter] + rest is the remaining input with the cursor after the delimiter, or the token is the whole remainder and the cursor becomes NULL |
| Tokenizer.TokensRoundTrip | EmStatPicoExample-C/EmStatPicoCodeExample/PalmSensComm/PSComm.c:115-132 | the tokens, re-joined with the separators they were cut at, give back the input, and there is one more token than separators |
| Tokenizer.TokensHaveNoDelimiters | EmStatPicoExample-C/EmStatPicoCodeExample/PalmSensComm/PSComm.c:115-132 | no token handed out contains a delimiter |
| Tokenizer.PlainTextIsOneToken | EmStatPicoExample-C/EmStatPicoCodeExample/PalmSensComm/PSComm.c:120-125 | text without a delimiter is one token |
| Tokenizer.CutAtFirstDelimiter | EmStatPicoExample-C/EmStatPicoCodeExample/PalmSensComm/PSComm.c:120-131 | the text before the first delimiter is the next token; tokenizing carries on after that delimiter |
| Tokenizer.TokensOfCut | EmStatPicoExample-C/EmStatPicoCodeExample/PalmSensComm/PSComm.c:120-131 | the tokens of x + [d] + rest are x followed by the tokens of rest |
| Tokenizer.TrailingDelimiterGivesEmptyToken | EmStatPicoExample-C/EmStatPicoCodeExample/PalmSensComm/PSComm.c:108-112 | a line ending in a delimiter yields a final empty token, which is still handed to the parser |
| Tokenizer.Tokens | EmStatPicoExample-C/EmStatPicoCodeExample/PalmSensComm/PSComm.c:105-112 | a text always gives at least one token, because the first call is made before the loop tests for NULL; the empty text gives one empty token |
| Tokenizer.TokensFromRoundTrip | EmStatPicoExample-C/EmStatPicoCodeExample/PalmSensComm/PSComm.c:108-132 | the repeated calls from a cursor until NULL (`TokensFrom`): one more token than separators in the rest of the text, and re-joined with those separators they give that rest back |
| MSComm.StrToVt | MethodSCRIPTExample_C/MethodSCRIPTExample_C/MethodSCRIPTcomm/MSComm.h:70 | a name of two lower-case letters has a code in 0..675 |
| MSComm.VartypeToUint8 | MethodSCRIPTExample_C/MethodSCRIPTExample_C/MethodSCRIPTcomm/MSComm.h:80 | two lower-case letters give a code of at least 0, and the code fits a uint8 (at most 255) iff the name is at most "jv" |
| MSComm.VtToStr | MethodSCRIPTExample_C/MethodSCRIPTExample_C/MethodSCRIPTcomm/MSComm.h:68-70 | every code 0..675 has a two-lower-case-letter name that encodes to it |
| MSComm.StrToVtAgreesWithVartypeToUint8 | MethodSCRIPTExample_C/MethodSCRIPTExample_C/MethodSCRIPTcomm/MSComm.h:80 | VARTYPE_TO_UINT8 of the two characters equals MSCR_STR_TO_VT of the string |
| MSComm.StrToVtExamples | MethodSCRIPTExample_C/MethodSCRIPTExample_C/MethodSCRIPTcomm/MSComm.h:68-70 | "aa" = 0, "ab" = 1, "ba" = 26, "zz" = 675 |
| MSComm.VarTypeNameRoundTrip | MethodSCRIPTExample_C/MethodSCRIPTExample_C/MethodSCRIPTcomm/MSComm.h:68-70 | a two-lower-case-letter name encodes into 0..675 and decodes back to itself |
| MSComm.StrToVtInjective | MethodSCRIPTExample_C/MethodSCRIPTExample_C/MethodSCRIPTcomm/MSComm.h:70 | two such names have the same code if and only if they are equal |
| MSComm.VarTypeCode | MethodSCRIPTExample_C/MethodSCRIPTExample_C/MethodSCRIPTcomm/MSComm.h:84-145 | every enumerator's value lies in 0..256; which value each one has is pinned by VarTypeCodeRoundTrip, VarTypeSentinels and VarTypeAnchors |
| MSComm.VarTypeOfCode | MethodSCRIPTExample_C/MethodSCRIPTExample_C/MethodSCRIPTcomm/MSComm.h:84-145 | only codes in 0..256 name a variable type |
| MSComm.VarTypeCodeRoundTrip | MethodSCRIPTExample_C/MethodSCRIPTExample_C/MethodSCRIPTcomm/MSComm.h:84-145 | looking up the code of each of the 42 variable types gives back that type |
| MSComm.VarTypeCodesDistinct | MethodSCRIPTExample_C/MethodSCRIPTExample_C/MethodSCRIPTcomm/MSComm.h:84-145 | two variable types have the same code if and only if they are the same type |
| MSComm.VarTypeFitsUint8 | MethodSCRIPTExample_C/MethodSCRIPTExample_C/MethodSCRIPTcomm/MSComm.h:83-145 | every variable type except the count fits in a uint8 (0..255) |
| MSComm.VarTypeSentinels | MethodSCRIPTExample_C/MethodSCRIPTExample_C/MethodSCRIPTcomm/MSComm.h:143-144 | MSCR_VT_NONE = 255, which is the code of "jv"; MSCR_VT_CNT = 256 |
| MSComm.VarTypeAnchors | MethodSCRIPTExample_C/MethodSCRIPTExample_C/MethodSCRIPTcomm/MSComm.h:88-115 | UNKNOWN is "aa" = 0, POTENTIAL is "ab" = 1, CURRENT is "ba" = 26, CELL_SET_POTENTIAL is "da" = 78 |
| MSComm.StatusBits | MethodSCRIPTExample_C/MethodSCRIPTExample_C/MethodSCRIPTcomm/MSComm.h:162-172 | the value is 0 exactly for STATUS_OK, and every status fits in the four low bits |
| MSComm.StatusBitsDisjoint | MethodSCRIPTExample_C/MethodSCRIPTExample_C/MethodSCRIPTcomm/MSComm.h:162-172 | each status is 0 or a single bit, and two different statuses have different values whose AND is 0 |
| MSComm.ReplyMarker | MethodSCRIPTExample_C/MethodSCRIPTExample_C/MethodSCRIPTcomm/MSComm.h:178-184 | every marker is one of 't', 'M', 'P', '*', and it is 'P' exactly for a measurement data point |
| MSComm.ReplyMarkersDistinct | MethodSCRIPTExample_C/MethodSCRIPTExample_C/MethodSCRIPTcomm/MSComm.h:178-184 | the reply markers 't', 'M', 'P', '*' are pairwise distinct |
| MSComm.NoMetadata | MethodSCRIPTExample_C/MethodSCRIPTExample_C/MethodSCRIPTcomm/MSComm.h:199-207 | fields not given are -1, so neither status nor current range counts as given |
| MSComm.EmptyPackage | MethodSCRIPTExample_C/MethodSCRIPTExample_C/MethodSCRIPTcomm/MSComm.h:220-227 | a fresh package has room for 100 subpackages, and none is in use |
| MSComm.AddSubpackage | MethodSCRIPTExample_C/MethodSCRIPTExample_C/MethodSCRIPTcomm/MSComm.h:220-227 | storing a subpackage below the capacity keeps the package valid and appends exactly that subpackage to the used ones |
| Metadata.StatusCascade | EmStatPicoExample-C/EmStatPicoCodeExample/PalmSensComm/PSComm.c:229-237 | the four tests always give a status: the first test masks with 0x0, so it always holds |
| Metadata.GetReadingStatusFromPackage | EmStatPicoExample-C/EmStatPicoCodeExample/PalmSensComm/PSComm.c:224-238 | a status field never leaves the result unset |
| Metadata.StatusPrecedence | EmStatPicoExample-C/EmStatPicoCodeExample/PalmSensComm/PSComm.c:229-236 | the last true test wins: "Overload warning" iff bit 3; "Underload" iff bit 2 and not bit 3; "Overload" iff bit 1 and neither bit 2 nor bit 3; "OK" iff none of bits 1-3 |
| Metadata.StatusExamples | EmStatPicoExample-C/EmStatPicoCodeExample/PalmSensComm/PSComm.c:228-237 | 0x0 and 0x1 give OK; 0x2 gives Overload; 0x4 and 0x6 give Underload; 0x8, 0xC and 0xE give Overload warning |
| Metadata.StatusLabels | EmStatPicoExample-C/EmStatPicoCodeExample/PalmSensComm/PSComm.c:229-236 | the four texts "OK", "Overload", "Underload" and "Overload warning" (`StatusLabel`), and two statuses have the same text iff they are equal |
| Metadata.CurrentRangeCodes | EmStatPicoExample-C/EmStatPicoCodeExample/PalmSensComm/PSComm.c:249-317 | a code has a label iff it is in 0..11 or 128..137; code 0 is "100nA", 11 is "15mA", 128 is "100nA (High speed)", 137 is "5mA (High speed)" |
| Metadata.StandardRangeTable | EmStatPicoExample-C/EmStatPicoCodeExample/PalmSensComm/PSComm.c:251-286 | the label of each code 0 to 11 (`CurrentRangeLabel`), case by case: "100nA", "2uA", "4uA", "8uA", "16uA", "32uA", "63uA", "125uA", "250uA", "500uA", "1mA", "15mA" |
| Metadata.HighSpeedRangeTable | EmStatPicoExample-C/EmStatPicoCodeExample/PalmSensComm/PSComm.c:287-316 | the label of each code 128 to 137, case by case: "100nA", "1uA", "6uA", "13uA", "25uA", "50uA", "100uA", "200uA", "1mA", "5mA", each followed by " (High speed)" |
| Metadata.HighSpeedLabels | EmStatPicoExample-C/EmStatPicoCodeExample/PalmSensComm/PSComm.c:287-317 | a label ends in " (High speed)" iff its code is 128 or more |
| Metadata.CurrentRangeCode | EmStatPicoExample-C/EmStatPicoCodeExample/PalmSensComm/PSComm.c:244-247 | at most two hex characters after the tag are read, so the code is below 256 |
| Metadata.GetCurrentRangeFromPackage | EmStatPicoExample-C/EmStatPicoCodeExample/PalmSensComm/PSComm.c:241-319 | a field gets a label iff its code is in one of the two tables, and the label is a high-speed one iff the code is 128 or more |
| Metadata.CurrentRangeExamples | EmStatPicoExample-C/EmStatPicoCodeExample/PalmSensComm/PSComm.c:246-317 | "288" gives "1mA (High speed)"; "20b" gives "15mA", because the third digit is not read |
| Metadata.CurrentRangeShortAndUnknown | EmStatPicoExample-C/EmStatPicoCodeExample/PalmSensComm/PSComm.c:246-318 | "2012" gives "2uA"; a bare tag "2" reads code 0, "100nA"; "2ff" has no label |
| Parser.CopyField | EmStatPicoExample-C/EmStatPicoCodeExample/PalmSensComm/PSComm.c:142-143 | strncpy: exactly `width` characters, those of the source and then '\0' padding |
| Parser.ParamValue | EmStatPicoExample-C/EmStatPicoCodeExample/PalmSensComm/PSComm.c:142-144 | a parameter's value has a mantissa in range. Its scale comes from the character at index 9 when the parameter has one, and is zero when the token ends earlier |
| Parser.ParamValueOfField | EmStatPicoExample-C/EmStatPicoCodeExample/PalmSensComm/PSComm.c:140-144 | a token that is a two-character identifier and one 8-character field decodes exactly as that field |
| Parser.LastTagged | EmStatPicoExample-C/EmStatPicoCodeExample/PalmSensComm/PSComm.c:207-221 | reference: the last metadata field with a tag, if any, is one of the fields, carries the tag, and no later field carries it; with none, no field carries it |
| Parser.MetaTokensLastTagWins | EmStatPicoExample-C/EmStatPicoCodeExample/PalmSensComm/PSComm.c:207-221 | over a list of fields, the last '1' field sets the status and the last '2' field the range. Without such a field the old value stays. Potential and current are untouched |
| Parser.MetadataLastTagWins | EmStatPicoExample-C/EmStatPicoCodeExample/PalmSensComm/PSComm.c:202-222 | the same for the metadata text of one parameter, split at ',' and '\n'; tag '4' and unknown tags change nothing |
| Parser.NoMetadataChangesNothing | EmStatPicoExample-C/EmStatPicoCodeExample/PalmSensComm/PSComm.c:202-222 | empty metadata leaves the record as it was |
| Parser.IndexOf | EmStatPicoExample-C/EmStatPicoCodeExample/PalmSensComm/PSComm.c:103 | strchr: the position of the first 'P', with none before it |
| Parser.ParamWritesOnlyItsFields | EmStatPicoExample-C/EmStatPicoCodeExample/PalmSensComm/PSComm.c:134-154 | "da" writes the potential and only "da" does; "ba" writes the current and only "ba" does. A token too short for metadata leaves status and range alone |
| Parser.PotentialParamEffect | EmStatPicoExample-C/EmStatPicoCodeExample/PalmSensComm/PSComm.c:134-154 | a nine-character "da" token sets the potential to its mantissa with scale zero, and changes nothing else |
| Parser.CurrentParamEffect | EmStatPicoExample-C/EmStatPicoCodeExample/PalmSensComm/PSComm.c:134-154 | a ten-character "ba" token sets the current to its mantissa, scaled by its prefix, and changes nothing else |
| Parser.LastWithIdentifier | EmStatPicoExample-C/EmStatPicoCodeExample/PalmSensComm/PSComm.c:108-112 | reference: the last parameter with an identifier, if any, is one of the parameters, carries it, and no later parameter carries it; with none, no parameter carries it |
| Parser.LastParamWins | EmStatPicoExample-C/EmStatPicoCodeExample/PalmSensComm/PSComm.c:108-112 | over a list of parameters (`ApplyParams`), the last "da" parameter decides the potential and the last "ba" the current; without one, the member keeps its value |
| Parser.ResponseLastParamWins | EmStatPicoExample-C/EmStatPicoCodeExample/PalmSensComm/PSComm.c:101-113 | the same over a whole data line (`ApplyResponse`): the tokens after its first 'P', split at ' ', ';' and '\n' |
| Parser.EmptyParamsChangeNothing | EmStatPicoExample-C/EmStatPicoCodeExample/PalmSensComm/PSComm.c:108-112 | the empty tokens between adjacent delimiters change nothing |
| Parser.ResponseAfterMarker | EmStatPicoExample-C/EmStatPicoCodeExample/PalmSensComm/PSComm.c:101-107 | for a line starting with 'P', the parameters are the tokens of everything after it |
| Parser.IdentifiersAreVarTypes | EmStatPicoExample-C/EmStatPicoCodeExample/PalmSensComm/PSComm.c:145-152 | "da" is the variable type CELL_SET_POTENTIAL and "ba" is CURRENT, by the MSComm.h encoding |
| Parser.SpacePrefixIsCut | EmStatPicoExample-C/EmStatPicoCodeExample/PalmSensComm/PSComm.c:105-158 | a space after the digits is a delimiter, so the token ends before its prefix and the value has scale zero |
| Parser.ParamValueRoundTrip | EmStatPicoExample-C/EmStatPicoCodeExample/PalmSensComm/PSComm.c:134-166 | any identifier, an encoded value and any metadata after it decode back to the encoded mantissa and prefix scale |
| Parser.TwoParamTokens | EmStatPicoExample-C/EmStatPicoCodeExample/PalmSensComm/PSComm.c:105-112 | `p1 ;p2;\n` splits into p1, "", p2, "", "" |
| Parser.TwoParamEffect | EmStatPicoExample-C/EmStatPicoCodeExample/PalmSensComm/PSComm.c:108-112 | those five tokens set the potential and the current and leave status and range alone |
| Parser.TwoParamLine | EmStatPicoExample-C/EmStatPicoCodeExample/PalmSensComm/PSComm.c:101-113 | the line `Pda<digits> ;ba<digits><prefix>;\n`, whose digits and prefix hold no delimiter, decodes to the potential with scale zero and the current with the prefix's scale |
| Parser.EncodedLineRoundTrip | EmStatPicoExample-C/EmStatPicoCodeExample/PalmSensComm/PSComm.c:101-166 | round trip over a whole line: any two encoded mantissas come back as the potential (scale zero) and the current (prefix scale). `Pda8000000 ;ba8000032u;\n` is the case 0, 50, 'u' |
| Parser.ThreeParamTokens | EmStatPicoExample-C/EmStatPicoCodeExample/PalmSensComm/PSComm.c:105-112 | `p1 ;p2;p3;\n` splits into p1, "", p2, p3, "", "" |
| Parser.MetadataThenPotentialLine | EmStatPicoExample-C/EmStatPicoCodeExample/PalmSensComm/PSComm.c:101-154 | a line whose current carries metadata after a ',' and is followed by a second potential: the second potential decides, the current is set and its metadata applied |
| Parser.MeasureData.constructor | EmStatPicoExample-C/EmStatPicoCodeExample/PalmSensComm/PSComm.c:91 | a new record has no member set |
| Parser.MeasureData.ParseMetaDataValues | EmStatPicoExample-C/EmStatPicoCodeExample/PalmSensComm/PSComm.c:202-222 | the token loop leaves the record as ApplyMetadata describes (last tag wins, by Parser.MetadataLastTagWins) |
| Parser.MeasureData.ParseParam | EmStatPicoExample-C/EmStatPicoCodeExample/PalmSensComm/PSComm.c:134-154 | the record ends as ApplyParam describes |
| Parser.MeasureData.ParseResponse | EmStatPicoExample-C/EmStatPicoCodeExample/PalmSensComm/PSComm.c:101-113 | the parameter loop leaves the record as ApplyResponse describes (last parameter wins, by Parser.LastParamWins) |
| InPlace.CStringAt | EmStatPicoExample-C/EmStatPicoCodeExample/PalmSensComm/PSComm.c:115-132 | what a `char*` into the buffer denotes: the characters up to the first '\0' (or the end of the buffer), with that '\0' right after them |
| InPlace.CutToken | EmStatPicoExample-C/EmStatPicoCodeExample/PalmSensComm/PSComm.c:115-132 | strtokenize on the buffer: the first delimiter of the C string at the cursor becomes '\0' and the cursor moves past it, with no delimiter before it; with none, the buffer is unchanged and the cursor becomes NULL |
| InPlace.MetaLoop | EmStatPicoExample-C/EmStatPicoCodeExample/PalmSensComm/PSComm.c:202-222 | the metadata do-while on the buffer never touches the potential or the current, and leaves the buffer as its cuts alone do |
| InPlace.MetaLoopIsApplyMetadata | EmStatPicoExample-C/EmStatPicoCodeExample/PalmSensComm/PSComm.c:202-222 | the metadata loop on the buffer decodes exactly what ApplyMetadata decodes from the C string at its start |
| InPlace.CutLoopBlanks | EmStatPicoExample-C/EmStatPicoCodeExample/PalmSensComm/PSComm.c:115-132 | the metadata loop writes '\0' over every ',' and '\n' of the C string it reads, and changes no other byte |
| InPlace.MetaLoopBuffer | EmStatPicoExample-C/EmStatPicoCodeExample/PalmSensComm/PSComm.c:202-222 | the same for the buffer the metadata loop leaves |
| InPlace.SetParamValue | EmStatPicoExample-C/EmStatPicoCodeExample/PalmSensComm/PSComm.c:140-152 | the value step of ParseParam on the buffer: the identifier and the 8-character field are read from the C string at the token, only a "da" token changes the potential, only a "ba" token the current, and status and range are untouched |
| InPlace.ParseParamInPlace | EmStatPicoExample-C/EmStatPicoCodeExample/PalmSensComm/PSComm.c:134-154 | ParseParam changes the buffer only through the cuts of a metadata loop started ten characters after the token's start |
| InPlace.ParseParamInPlaceMeaning | EmStatPicoExample-C/EmStatPicoCodeExample/PalmSensComm/PSComm.c:134-154 | a token of ten characters or more is decoded as ApplyParam decodes it; a shorter one has ApplyParam applied and then, as metadata, the C string ten characters after its start |
| InPlace.ParamLoopCutAt | EmStatPicoExample-C/EmStatPicoCodeExample/PalmSensComm/PSComm.c:108-112 | one turn of the parameter do-while as written (`ParamLoop`): a token that ends at a delimiter has it overwritten with '\0', is parsed in place by ParseParamInPlace, and the loop goes on after the delimiter |
| InPlace.ParamLoopEndsAt | EmStatPicoExample-C/EmStatPicoCodeExample/PalmSensComm/PSComm.c:108-112 | the last turn of `ParamLoop`: a token that ends at a '\0' leaves the buffer uncut, is parsed in place, and the loop ends |
| InPlace.TrailingTokenReadsPastLine | EmStatPicoExample-C/EmStatPicoCodeExample/PalmSensComm/PSComm.c:101-154 | on the buffer holding `P` `da` 7 digits ` ;` `ba` 7 digits prefix `;\n` and its '\0', `ParseResponseInPlace` (C's ParseResponse on the buffer: `ParamLoop` from the character after the first 'P') decodes the line as the model does, then also the prefix field and the C string at byte 33, past the terminator |
| InPlace.StaleBytesSetStatus | EmStatPicoExample-C/EmStatPicoCodeExample/PalmSensComm/PSComm.c:101-154 | with "14" and a '\0' left at bytes 33 to 35, `ParseResponseInPlace` reports an underload that the line does not carry; the model leaves the status as it was |
| InPlace.ShortTokenEndsLoop | EmStatPicoExample-C/EmStatPicoCodeExample/PalmSensComm/PSComm.c:101-154 | on any buffer that starts `P` `da` 7 digits ` ;` `ba` 7 digits prefix `,`, `ParseResponseInPlace` sets the potential and the current and decodes no later parameter |
| InPlace.ShortTokenAsWritten | EmStatPicoExample-C/EmStatPicoCodeExample/PalmSensComm/PSComm.c:101-154 | the same, for any text after the ',' |
| InPlace.ShortTokenModel | EmStatPicoExample-C/EmStatPicoCodeExample/PalmSensComm/PSComm.c:101-154 | the model on the line with metadata and a second potential: the current is set and the second potential decides |
| InPlace.ShortTokenCutsLine | EmStatPicoExample-C/EmStatPicoCodeExample/PalmSensComm/PSComm.c:101-154 | on `Pda<7> ;ba<7><x>,<m>;da<7><x2>;\n` `ParseResponseInPlace` keeps the first potential and the model (`ApplyResponse`) takes the second; both set the same current |
| LineReader.Classify | EmStatPicoExample-C/EmStatPicoCodeExample/PalmSensComm/PSComm.c:71-83 | for a completed line, each of the five codes holds iff its test holds and no earlier test does (first 'M'; exactly "*\n"; exactly "\n"; first 'P'; anything else). It is never CODE_NULL or CODE_RESPONSE_BEGIN |
| LineReader.Scan | EmStatPicoExample-C/EmStatPicoCodeExample/PalmSensComm/PSComm.c:64-88 | the read loop from read k: it uses at least k and at most all of the reads, keeps what was stored and stores at most 99 bytes; with no code every read was used, and a code comes with a newly stored byte |
| LineReader.ReadLine | EmStatPicoExample-C/EmStatPicoCodeExample/PalmSensComm/PSComm.c:60-89 | one call from an empty buffer: a code comes with at least one stored byte; with no code every read was used and every positive one stored |
| LineReader.ScanStores | EmStatPicoExample-C/EmStatPicoCodeExample/PalmSensComm/PSComm.c:64-88 | the buffer holds exactly the positive reads consumed so far, never more than 99 bytes, and a finished line ends on a stored byte |
| LineReader.ScanNewlineLast | EmStatPicoExample-C/EmStatPicoCodeExample/PalmSensComm/PSComm.c:71-84 | a newline can only be the last byte stored |
| LineReader.ScanCodes | EmStatPicoExample-C/EmStatPicoCodeExample/PalmSensComm/PSComm.c:64-88 | RESPONSE_BEGIN iff the first byte is 'e', and then exactly one byte is stored. CODE_NULL iff 99 bytes without a newline. A line code iff the line ends in '\n', and then it is Classify's |
| LineReader.ReadLineSpec | EmStatPicoExample-C/EmStatPicoCodeExample/PalmSensComm/PSComm.c:60-89 | all of the above for one whole call from an empty buffer |
| LineReader.ScanShift | EmStatPicoExample-C/EmStatPicoCodeExample/PalmSensComm/PSComm.c:64-66 | the loop's outcome depends only on the reads not yet consumed |
| LineReader.SkippedRead | EmStatPicoExample-C/EmStatPicoCodeExample/PalmSensComm/PSComm.c:65-66 | removing a read of zero or less changes neither the code nor the stored bytes, only the count of reads consumed |
| LineReader.ReadLineExamples | EmStatPicoExample-C/EmStatPicoCodeExample/PalmSensComm/PSComm.c:60-89 | "e" after skipped reads gives RESPONSE_BEGIN at once; "*\n" gives MEASUREMENT_DONE; "\n" gives RESPONSE_END; "M0\n" gives MEASURING; "P\n" gives OK; "t\n" gives NOT_IMPLEMENTED; "P" with no more reads gives no code |
| LineReader.CString | EmStatPicoExample-C/EmStatPicoCodeExample/PalmSensComm/PSComm.c:76-78 | what strcmp sees: the longest '\0'-free prefix of the buffer, followed by '\0' when the buffer goes on |
| LineReader.CStringOfTerminated | EmStatPicoExample-C/EmStatPicoCodeExample/PalmSensComm/PSComm.c:73 | a line written into the buffer and terminated with '\0' reads back as that line |
| LineReader.BytesHaveNoNul | EmStatPicoExample-C/EmStatPicoCodeExample/PalmSensComm/PSComm.c:66 | only positive reads are stored, so a line never holds '\0' |
| LineReader.ReadBuf | EmStatPicoExample-C/EmStatPicoCodeExample/PalmSensComm/PSComm.c:60-89 | the code and the number of reads are ReadLine's, and the buffer holds ReadLine's bytes. It is '\0'-terminated for every code but RESPONSE_BEGIN. No other byte is written: the bytes past the stored line (and past its terminator, when one is written) keep their old values |
| LineReader.ReceivePackage | EmStatPicoExample-C/EmStatPicoCodeExample/PalmSensComm/PSComm.c:91-99 | returns ReadBuf's code unchanged. Only on CODE_OK is the record updated, and then to ApplyResponse of the line read; otherwise it is untouched |

## Findings

| source | as written | input that shows it | evidently intended | confidence | as-written member | corrected member |
|---|---|---|---|---|---|---|
| EmStatPicoExample-C/EmStatPicoCodeExample/PalmSensComm/PSComm.c:153 | `ParseMetaDataValues(param + 10, ...)` runs for every token. For a token under 10 characters, the metadata pass reads the rest of the line and writes '\0' over its ',' and '\n', and the parameter loop stops there | `Pda8000000 ;ba8000032u,14;da8000010u;\n`: C decodes no parameter after `ba8000032u`, so the potential stays at 0 instead of 16e-6 | a parameter's metadata is the part of that parameter after its value field, and every parameter of the line is decoded | high; derived from the C text, not executed | InPlace.ShortTokenCutsLine | Parser.MetadataThenPotentialLine |
| EmStatPicoExample-C/EmStatPicoCodeExample/PalmSensComm/PSComm.c:108-153 | the empty tokens at the end of the line are parsed too, and their `param + 10` lies past the line's '\0', in bytes that this line did not write | the canonical line `Pda8000000 ;ba8000032u;\n` in a buffer whose bytes 33 to 35 still hold `14` and '\0' from an earlier line: C reports an underload | a line's status comes only from the line itself | high; derived from the C text, not executed | InPlace.StaleBytesSetStatus | Parser.TwoParamLine |

## Left out

- `PSCommInit`, `WriteStr` and `WriteChar` (PSComm.c lines 34-58) are not modelled. They store the read and write callbacks and write to the serial port, and only the read side takes part in decoding.
- The Android Bluetooth service (BluetoothConnectionService.java) is not modelled. It is socket I/O and threading, and its line accumulation duplicates `ReadBuf`.
- Floating point: the `float` and `double` arithmetic of `GetParameterValue` is replaced by an exact value (integer mantissa and decimal exponent), so rounding is not modelled.
- `strtol` is modelled as the value of the leading hexadecimal digits. Leading white space, a sign, a `0x` prefix and overflow of `long` are not modelled.
  - A field that starts with white space or a sign is read as holding no digits, so its value is 0.
  - A field that starts with `0x` is read as its leading '0' alone, so its value is also 0. `strtol` would skip the `0x` and read the digits after it.
- `Metadata.CurrentRangeCode` reads at most the two characters after the tag. The C buffer `crBytePackage` is not '\0'-terminated when both characters are present, so `strtol` could read on into the stack; the model stops at two.
- `Tokenizer.StrTokenize` returns the token as a slice and the cursor as an index. It does not write '\0' into the line, so aliasing between the tokens and the line is not modelled there. `InPlace.CutToken` models the write, for the decoding loops as written.
- `Parser.ApplyParam` and `Parser.MeasureData.ParseParam` read metadata only from a token of at least 10 characters, and only from that token. The C code passes `param + 10` whatever the token's length (PSComm.c line 153).
  - For a shorter token that the line goes on past, `param + 10` is a defined position further along the line. C parses the rest of the line from there as this token's metadata.
  - That pass writes '\0' over every ',' and '\n' it meets (line 128). The parameter loop then stops at the first of them.
  - Near the end of the line, `param + 10` lies past the terminator, in bytes of the buffer that this line did not write.
  - The model decodes every parameter of the line and reads metadata only from inside a token. `InPlace` models the text as written, and "## Findings" gives the inputs on which the two differ.
- ParseParam: `Parser.MeasureData.ParseParam` is proved against `ApplyParam`, the corrected reading. It does not model C's metadata pass past a short token (see "## Findings"; `InPlace.ParseParamInPlaceMeaning` gives C's result).
- ParamWritesOnlyItsFields: its clause "a token shorter than 10 characters leaves status and range alone" holds for the model. In C such a token's metadata pass reads the rest of the line (see "## Findings").
- PotentialParamEffect: "changes nothing else" holds for the model. In C a nine-character "da" token that the line goes on past has the rest of the line decoded as its metadata.
- TwoParamLine: its digits may be any characters that are not parameter delimiters. In C the potential's metadata pass starts inside the current token, so a ',' among the current's digits is cut to '\0' before the current is read. The current then loses its prefix scale, and the text after the ',' is decoded as a metadata field (with `00,1000` as the current's digits, as a status field). The lemma states the model's result. `Parser.EncodedLineRoundTrip` (hex digits only) is the case where C agrees on the values; `InPlace.TrailingTokenReadsPastLine` gives C's result on that line.
- LastParamWins: "the last parameter decides" holds for the model's parameter list. C stops decoding at the first ',' or '\n' that a short token's metadata pass has cut (see "## Findings").
- EncodedLineRoundTrip: the potential and the current agree with C. C also decodes, as metadata, the bytes of the buffer past the line's terminator, which can set a status or range (`InPlace.StaleBytesSetStatus`).
- `LineReader.ReadBuf` returns no code (`None`) when the reads run out before a line is complete. The C loop keeps calling the read function instead; this outcome is a modelling choice.
- Read results are modelled as integers of at most 255 (a byte, or zero or less for "nothing"). Other values of the C `int` are not considered.
- `Metadata.StatusCascade` starts from `None` for the uninitialised `status` variable and is proved never to return it.
- `Metadata.GetCurrentRangeFromPackage` returns `None` where the C function returns an uninitialised `char*` (codes outside the tables). In `MeasureData`, `None` then means both "never set" and "unknown code".
- Metadata tag '4' (noise) is recognised by the C code but sets nothing, and so it changes nothing in the model.
- `Parser.MeasureData.ParseResponse` requires a 'P' in the line. `ReceivePackage` only calls it on lines that start with 'P', and without one `strchr` returns NULL.
- The functions that MSComm.h only declares (`MSCommInit`, the MethodSCRIPT `ReceivePackage`, `ParseResponse`, `ParseParam`, `ReadBuf` and the `...ToString` helpers, lines 236-407) have no bodies here and are not modelled. The package structures they would fill are modelled as data with their invariants.
- `PSComm.h` and `MSCommon.h` (the `MeasureData` structure and `RetCode`) are not part of this model. Their contents are reconstructed from how PSComm.c uses them.
