/**
 * The decoding loops as the C text runs them on the 100-character line
 * buffer of `ReceivePackage`.
 *
 * `strtokenize` overwrites each delimiter it finds with '\0', and the token
 * it hands out is the C string at the cursor. `ParseParam` passes
 * `param + 10` to the metadata loop whatever the length of the token, so for
 * a token shorter than ten characters that loop reads, and writes '\0' into,
 * the rest of the line, and past the end of the line the buffer bytes that
 * `ReadBuf` never wrote. The buffer is the line, its terminating '\0' and
 * those bytes, which are a parameter here.
 *
 * The model proper (`Parser`) reads metadata only from the tenth character
 * of a token on; the lemmas at the end of this module show where the text
 * as written departs from it.
 */
module InPlace {
  import opened Wrappers
  import opened Numeric
  import opened Values
  import opened Tokenizer
  import opened Metadata
  import opened Parser
  import opened MSComm

  /** The C string that starts at `p`: the characters up to the first '\0', or to the end of the buffer. */
  function CStringAt(buf: string, p: nat): (s: string)
    ensures s == [] || p + |s| <= |buf|
    ensures forall i :: 0 <= i < |s| ==> buf[p + i] == s[i]
    ensures '\0' !in s
    ensures p + |s| < |buf| ==> buf[p + |s|] == '\0'
    decreases |buf| - p
  {
    if p >= |buf| || buf[p] == '\0' then [] else [buf[p]] + CStringAt(buf, p + 1)
  }

  /** A '\0'-free run that ends at a '\0' or at the end of the buffer is the C string there. */
  lemma {:induction false} CStringAtIs(buf: string, p: nat, t: string)
    requires p + |t| <= |buf| && '\0' !in t
    requires forall i :: 0 <= i < |t| ==> buf[p + i] == t[i]
    requires p + |t| == |buf| || buf[p + |t|] == '\0'
    ensures CStringAt(buf, p) == t
    decreases |t|
  {
    if t != [] {
      assert buf[p] == t[0];
      CStringAtIs(buf, p + 1, t[1..]);
      assert t == [t[0]] + t[1..];
    }
  }

  /** A C string runs at least as far as the buffer holds no '\0'. */
  lemma {:induction false} CStringAtReaches(buf: string, p: nat, k: nat)
    requires p + k < |buf| && forall i :: p <= i <= p + k ==> buf[i] != '\0'
    ensures k < |CStringAt(buf, p)|
    decreases k
  {
    if k > 0 {
      CStringAtReaches(buf, p + 1, k - 1);
    }
  }

  /** The C string a few characters into a C string is the rest of it. */
  lemma CStringAtSuffix(buf: string, p: nat, k: nat)
    requires k <= |CStringAt(buf, p)|
    ensures CStringAt(buf, p + k) == CStringAt(buf, p)[k..]
  {
    var s := CStringAt(buf, p);
    if s != [] {
      CStringAtIs(buf, p + k, s[k..]);
    }
  }

  /** What one `strtokenize` call leaves: the buffer with the delimiter overwritten, and the new cursor. */
  datatype Cut = Cut(buf: string, next: Option<nat>)

  /**
   * `strtokenize` with its cursor at `start`: the first delimiter of the C
   * string there becomes '\0' and the cursor moves past it; with none, the
   * buffer is unchanged and the cursor becomes NULL.
   */
  function CutToken(buf: string, start: nat, delims: string): (r: Cut)
    requires start <= |buf| && '\0' !in delims
    ensures |r.buf| == |buf|
    ensures r.next.Some? ==>
              start < r.next.value <= |buf| && buf[r.next.value - 1] in delims &&
              r.buf == buf[r.next.value - 1 := '\0'] &&
              NoDelimiter(buf[start..r.next.value - 1], delims) && '\0' !in buf[start..r.next.value - 1]
    ensures r.next.None? ==> r.buf == buf && NoDelimiter(CStringAt(buf, start), delims)
  {
    var s := CStringAt(buf, start);
    match FindDelimiter(s, 0, delims)
    case None =>
      assert s[0..] == s;
      Cut(buf, None)
    case Some(i) =>
      assert buf[start..start + i] == s[0..i];
      Cut(buf[start + i := '\0'], Some(start + i + 1))
  }

  /** The token a cut hands out: the C string at the cursor up to the delimiter, which is written over. */
  lemma CutTokenText(buf: string, start: nat, delims: string)
    requires start <= |buf| && '\0' !in delims
    ensures var r := CutToken(buf, start, delims);
            var s := CStringAt(buf, start);
            r.next.None? ==> CStringAt(r.buf, start) == s && NoDelimiter(s, delims)
    ensures var r := CutToken(buf, start, delims);
            var s := CStringAt(buf, start);
            r.next.Some? ==>
              var i := r.next.value - 1 - start;
              i < |s| && NoDelimiter(s[..i], delims) && s[i] in delims &&
              CStringAt(r.buf, start) == s[..i] && CStringAt(r.buf, r.next.value) == s[i + 1..]
  {
    var r := CutToken(buf, start, delims);
    var s := CStringAt(buf, start);
    if r.next.Some? {
      var n := r.next.value;
      var q := n - 1;
      forall i | start <= i <= q
        ensures buf[i] != '\0'
      {
        if i < q {
          assert buf[i] == buf[start..q][i - start];
        }
      }
      CStringAtReaches(buf, start, q - start);
      assert s[..q - start] == buf[start..q];
      CStringAtIs(r.buf, start, s[..q - start]);
      CStringAtSuffix(buf, start, q - start + 1);
      CStringAtAgree(r.buf, buf, n);
    }
  }

  /** The C string at `p` depends only on the buffer from `p` on. */
  lemma CStringAtAgree(a: string, b: string, p: nat)
    requires |a| == |b| && forall i :: p <= i < |a| ==> a[i] == b[i]
    ensures CStringAt(a, p) == CStringAt(b, p)
  {
    var t := CStringAt(b, p);
    if t != [] {
      CStringAtIs(a, p, t);
    }
  }

  /** The result of a loop over the buffer: the buffer with its cuts, and the record. */
  datatype Parsed = Parsed(buf: string, data: Reading)

  /** The do-while loop of `ParseMetaDataValues` from the cursor on. */
  function MetaLoop(buf: string, cursor: Option<nat>, d: Reading): (r: Parsed)
    requires cursor.Some? ==> cursor.value <= |buf|
    ensures r.buf == CutLoop(buf, cursor) && |r.buf| == |buf|
    ensures r.data.potential == d.potential && r.data.current == d.current
    decreases Remaining(buf, cursor)
  {
    match cursor
    case None => Parsed(buf, d)
    case Some(start) =>
      var cut := CutToken(buf, start, MetaDataDelimiters);
      MetaLoop(cut.buf, cut.next, ApplyMetaToken(d, CStringAt(cut.buf, start)))
  }

  /**
   * `ParseParam` on the token at `p`: the identifier and the value field are
   * read from the C string there, and the metadata loop starts ten
   * characters after `p`, whether or not the token reaches that far. A start
   * past the buffer reads nothing.
   */
  function ParseParamInPlace(buf: string, p: nat, d: Reading): (r: Parsed)
    requires p <= |buf|
    ensures r.buf == (if p + MetadataOffset <= |buf| then CutLoop(buf, Some(p + MetadataOffset)) else buf)
  {
    var d := SetParamValue(buf, p, d);
    if p + MetadataOffset <= |buf| then MetaLoop(buf, Some(p + MetadataOffset), d) else Parsed(buf, d)
  }

  /** The value step of `ParseParam`: the eight characters after the identifier go where the identifier says. */
  function SetParamValue(buf: string, p: nat, d: Reading): (r: Reading)
    ensures r.status == d.status && r.cr == d.cr
    ensures r.potential != d.potential ==> HasIdentifier(CStringAt(buf, p), PotentialId)
    ensures r.current != d.current ==> HasIdentifier(CStringAt(buf, p), CurrentId)
  {
    var param := CStringAt(buf, p);
    var parameterValue := GetParameterValue(CopyField(CStringAt(buf, p + 2), ValueFieldWidth));
    if HasIdentifier(param, PotentialId) then d.(potential := Some(parameterValue))
    else if HasIdentifier(param, CurrentId) then d.(current := Some(parameterValue))
    else d
  }

  /** The do-while loop of `ParseResponse` from the cursor on. */
  function ParamLoop(buf: string, cursor: Option<nat>, d: Reading): (r: Reading)
    requires cursor.Some? ==> cursor.value <= |buf|
    decreases Remaining(buf, cursor)
  {
    match cursor
    case None => d
    case Some(start) =>
      var cut := CutToken(buf, start, ParamDelimiters);
      var parsed := ParseParamInPlace(cut.buf, start, d);
      ParamLoop(parsed.buf, cut.next, parsed.data)
  }

  /** `ParseResponse` on the buffer: the parameters start after the first 'P' of the line. */
  function ParseResponseInPlace(buf: string, d: Reading): Reading
    requires 'P' in CStringAt(buf, 0)
  {
    ParamLoop(buf, Some(IndexOf(CStringAt(buf, 0), 'P') + 1), d)
  }

  // ---------------------------------------------------------------------
  // What the loops compute

  /**
   * The metadata loop decodes exactly the fields that the value-level
   * tokenizer finds in the C string at its start: its '\0' writes only
   * split that string.
   */
  lemma {:induction false} MetaLoopIsApplyMetadata(buf: string, p: nat, d: Reading)
    requires p <= |buf|
    ensures MetaLoop(buf, Some(p), d).data == ApplyMetadata(d, CStringAt(buf, p))
    decreases |buf| - p
  {
    var cut := CutToken(buf, p, MetaDataDelimiters);
    if cut.next.None? {
      MetaLoopUncut(buf, p, d);
    } else {
      var n := cut.next.value;
      var s := CStringAt(buf, p);
      var token := s[..n - 1 - p];
      MetaLoopCut(buf, p, d);
      MetaLoopIsApplyMetadata(cut.buf, n, ApplyMetaToken(d, token));
    }
  }

  lemma MetaLoopUncut(buf: string, p: nat, d: Reading)
    requires p <= |buf| && CutToken(buf, p, MetaDataDelimiters).next.None?
    ensures MetaLoop(buf, Some(p), d).data == ApplyMetadata(d, CStringAt(buf, p))
  {
    CutTokenText(buf, p, MetaDataDelimiters);
    MetaLoopStep(buf, p, d);
    MetadataOfPlainText(d, CStringAt(buf, p));
  }

  lemma MetaLoopCut(buf: string, p: nat, d: Reading)
    requires p <= |buf| && CutToken(buf, p, MetaDataDelimiters).next.Some?
    ensures var cut := CutToken(buf, p, MetaDataDelimiters);
            var n := cut.next.value;
            var s := CStringAt(buf, p);
            n - 1 - p < |s| &&
            MetaLoop(buf, Some(p), d) == MetaLoop(cut.buf, Some(n), ApplyMetaToken(d, s[..n - 1 - p])) &&
            ApplyMetadata(d, s) == ApplyMetadata(ApplyMetaToken(d, s[..n - 1 - p]), CStringAt(cut.buf, n))
  {
    MetaLoopCutLoop(buf, p, d);
    MetaLoopCutData(buf, p, d);
  }

  lemma MetaLoopCutLoop(buf: string, p: nat, d: Reading)
    requires p <= |buf| && CutToken(buf, p, MetaDataDelimiters).next.Some?
    ensures var cut := CutToken(buf, p, MetaDataDelimiters);
            var n := cut.next.value;
            var s := CStringAt(buf, p);
            n - 1 - p < |s| &&
            MetaLoop(buf, Some(p), d) == MetaLoop(cut.buf, Some(n), ApplyMetaToken(d, s[..n - 1 - p]))
  {
    CutTokenText(buf, p, MetaDataDelimiters);
    MetaLoopStep(buf, p, d);
  }

  lemma MetaLoopCutData(buf: string, p: nat, d: Reading)
    requires p <= |buf| && CutToken(buf, p, MetaDataDelimiters).next.Some?
    ensures var cut := CutToken(buf, p, MetaDataDelimiters);
            var n := cut.next.value;
            var s := CStringAt(buf, p);
            n - 1 - p < |s| &&
            ApplyMetadata(d, s) == ApplyMetadata(ApplyMetaToken(d, s[..n - 1 - p]), CStringAt(cut.buf, n))
  {
    var cut := CutToken(buf, p, MetaDataDelimiters);
    var s := CStringAt(buf, p);
    var i := cut.next.value - 1 - p;
    CutTokenText(buf, p, MetaDataDelimiters);
    assert SplitsAt(s, i) && CStringAt(cut.buf, cut.next.value) == s[i + 1..];
    MetadataAtDelimiter(d, s, i);
  }

  /** `i` is the first metadata separator of `s`. */
  predicate SplitsAt(s: string, i: nat)
  {
    i < |s| && NoDelimiter(s[..i], MetaDataDelimiters) && s[i] in MetaDataDelimiters
  }

  /** Splitting metadata at a separator: the field before it, then the rest. */
  lemma MetadataAtDelimiter(d: Reading, s: string, i: nat)
    requires SplitsAt(s, i)
    ensures ApplyMetadata(d, s) == ApplyMetadata(ApplyMetaToken(d, s[..i]), s[i + 1..])
  {
    MetadataOfCut(d, s[..i], s[i], s[i + 1..]);
    assert s == s[..i] + [s[i]] + s[i + 1..];
  }

  lemma MetaLoopStep(buf: string, p: nat, d: Reading)
    requires p <= |buf|
    ensures var cut := CutToken(buf, p, MetaDataDelimiters);
            MetaLoop(buf, Some(p), d) == MetaLoop(cut.buf, cut.next, ApplyMetaToken(d, CStringAt(cut.buf, p)))
  {
  }

  /** Metadata without a separator is one field. */
  lemma MetadataOfPlainText(d: Reading, s: string)
    requires NoDelimiter(s, MetaDataDelimiters)
    ensures ApplyMetadata(d, s) == ApplyMetaToken(d, s)
  {
    PlainTextIsOneToken(s, MetaDataDelimiters);
    var none: seq<string> := [];
    assert [s][1..] == none;
    assert ApplyMetaTokens(d, [s]) == ApplyMetaTokens(ApplyMetaToken(d, s), none);
  }

  /** The field before the first separator is decoded first, then the rest. */
  lemma MetadataOfCut(d: Reading, token: string, sep: char, rest: string)
    requires NoDelimiter(token, MetaDataDelimiters) && sep in MetaDataDelimiters
    ensures ApplyMetadata(d, token + [sep] + rest) == ApplyMetadata(ApplyMetaToken(d, token), rest)
  {
    TokensOfCut(token, sep, rest, MetaDataDelimiters);
    var ts := [token] + Tokens(rest, MetaDataDelimiters);
    assert ts[1..] == Tokens(rest, MetaDataDelimiters);
    assert ApplyMetaTokens(d, ts) == ApplyMetaTokens(ApplyMetaToken(d, ts[0]), ts[1..]);
  }

  /**
   * `ParseParam` as written: the value goes where the identifier says, and
   * the metadata is whatever C string starts ten characters after the
   * token's start. For a token of ten characters or more that is the rest of
   * the token, and the result is the model's `ApplyParam`; for a shorter
   * token it lies beyond the token.
   */
  lemma ParseParamInPlaceMeaning(buf: string, p: nat, d: Reading)
    requires p <= |buf|
    ensures var param := CStringAt(buf, p);
            var r := ParseParamInPlace(buf, p, d).data;
            (|param| >= MetadataOffset ==> r == ApplyParam(d, param)) &&
            (|param| < MetadataOffset && p + MetadataOffset <= |buf| ==>
               r == ApplyMetadata(ApplyParam(d, param), CStringAt(buf, p + MetadataOffset))) &&
            (p + MetadataOffset > |buf| ==> r == ApplyParam(d, param))
  {
    var param := CStringAt(buf, p);
    if |param| >= 2 {
      CStringAtSuffix(buf, p, 2);
    }
    if |param| >= MetadataOffset {
      CStringAtSuffix(buf, p, MetadataOffset);
    }
    assert SetParamValue(buf, p, d) ==
           if HasIdentifier(param, PotentialId) then d.(potential := Some(ParamValue(param)))
           else if HasIdentifier(param, CurrentId) then d.(current := Some(ParamValue(param)))
           else d;
    if p + MetadataOffset <= |buf| {
      MetaLoopIsApplyMetadata(buf, p + MetadataOffset, SetParamValue(buf, p, d));
    }
  }

  /** The metadata loop writes '\0' over every separator of the C string it reads, and changes nothing else. */
  lemma MetaLoopBuffer(buf: string, p: nat, d: Reading)
    requires p <= |buf|
    ensures Blanked(buf, MetaLoop(buf, Some(p), d).buf, p, p + |CStringAt(buf, p)|)
  {
    CutLoopBlanks(buf, p);
  }

  /** The cuts of the metadata loop alone, without the fields they hand out. */
  function CutLoop(buf: string, cursor: Option<nat>): (r: string)
    requires cursor.Some? ==> cursor.value <= |buf|
    ensures |r| == |buf|
    decreases Remaining(buf, cursor)
  {
    match cursor
    case None => buf
    case Some(start) =>
      var cut := CutToken(buf, start, MetaDataDelimiters);
      CutLoop(cut.buf, cut.next)
  }

  lemma {:induction false} CutLoopBlanks(buf: string, p: nat)
    requires p <= |buf|
    ensures Blanked(buf, CutLoop(buf, Some(p)), p, p + |CStringAt(buf, p)|)
    decreases |buf| - p
  {
    var s := CStringAt(buf, p);
    var cut := CutToken(buf, p, MetaDataDelimiters);
    CutTokenText(buf, p, MetaDataDelimiters);
    if cut.next.Some? {
      var n := cut.next.value;
      var t := CStringAt(cut.buf, n);
      assert n + |t| == p + |s|;
      CutLoopBlanks(cut.buf, n);
      CutBufferStep(buf, cut.buf, p, n, n + |t|, CutLoop(cut.buf, Some(n)));
    } else {
      forall i | p <= i < p + |s|
        ensures buf[i] !in MetaDataDelimiters
      {
        assert buf[i] == s[i - p];
      }
    }
  }

  /** `r` is `buf` with '\0' over every metadata separator in `[from, to)`. */
  predicate Blanked(buf: string, r: string, from: nat, to: nat)
  {
    |r| == |buf| &&
    forall i :: 0 <= i < |buf| ==> r[i] == if from <= i < to && buf[i] in MetaDataDelimiters then '\0' else buf[i]
  }

  /** One cut of the metadata loop, as a step of `MetaLoopBuffer`. */
  lemma CutBufferStep(buf: string, cut: string, p: nat, n: nat, e: nat, r: string)
    requires p < n <= e <= |buf| && buf[n - 1] in MetaDataDelimiters && cut == buf[n - 1 := '\0']
    requires NoDelimiter(buf[p..n - 1], MetaDataDelimiters)
    requires Blanked(cut, r, n, e)
    ensures Blanked(buf, r, p, e)
  {
    forall i | p <= i < n - 1
      ensures buf[i] !in MetaDataDelimiters
    {
      assert buf[i] == buf[p..n - 1][i - p];
    }
  }

  /** A run of characters that are neither '\0' nor delimiters. */
  predicate Plain(buf: string, from: nat, to: nat, delims: string)
    requires from <= to <= |buf|
  {
    forall i :: from <= i < to ==> buf[i] != '\0' && buf[i] !in delims
  }

  /** A cut where the next delimiter is at `q`: it is overwritten, and the token is the run before it. */
  lemma CutAt(buf: string, start: nat, q: nat, delims: string)
    requires '\0' !in delims && start <= q < |buf| && buf[q] in delims && Plain(buf, start, q, delims)
    ensures CutToken(buf, start, delims) == Cut(buf[q := '\0'], Some(q + 1))
    ensures CStringAt(buf[q := '\0'], start) == buf[start..q]
  {
    var s := CStringAt(buf, start);
    CStringAtReaches(buf, start, q - start);
    assert s[q - start] == buf[q];
    assert forall k :: 0 <= k < q - start ==> s[k] == buf[start + k];
    assert s[0..][q - start] == buf[q];
    assert FindDelimiter(s, 0, delims) == Some(q - start);
    CStringAtIs(buf[q := '\0'], start, buf[start..q]);
  }

  /** A cut where the C string ends at `q` before any delimiter: nothing is overwritten and the cursor becomes NULL. */
  lemma CutEnd(buf: string, start: nat, q: nat, delims: string)
    requires '\0' !in delims && start <= q <= |buf| && (q == |buf| || buf[q] == '\0') && Plain(buf, start, q, delims)
    ensures CutToken(buf, start, delims) == Cut(buf, None)
    ensures CStringAt(buf, start) == buf[start..q]
  {
    CStringAtIs(buf, start, buf[start..q]);
    var s := CStringAt(buf, start);
    assert s[0..] == s;
    assert FindDelimiter(s, 0, delims) == None;
  }

  /** The parameter loop at a token that ends at a delimiter: the delimiter is cut and the loop moves past it. */
  lemma ParamLoopCutAt(buf: string, start: nat, q: nat, d: Reading)
    requires start <= q < |buf| && buf[q] in ParamDelimiters && Plain(buf, start, q, ParamDelimiters)
    ensures CutToken(buf, start, ParamDelimiters) == Cut(buf[q := '\0'], Some(q + 1))
    ensures CStringAt(buf[q := '\0'], start) == buf[start..q]
    ensures var parsed := ParseParamInPlace(buf[q := '\0'], start, d);
            ParamLoop(buf, Some(start), d) == ParamLoop(parsed.buf, Some(q + 1), parsed.data)
  {
    CutAt(buf, start, q, ParamDelimiters);
  }

  /** The parameter loop at a token that ends at a '\0': the last token. */
  lemma ParamLoopEndsAt(buf: string, start: nat, q: nat, d: Reading)
    requires start <= q < |buf| && buf[q] == '\0' && Plain(buf, start, q, ParamDelimiters)
    ensures CutToken(buf, start, ParamDelimiters) == Cut(buf, None)
    ensures CStringAt(buf, start) == buf[start..q]
    ensures ParamLoop(buf, Some(start), d) == ParseParamInPlace(buf, start, d).data
  {
    CutEnd(buf, start, q, ParamDelimiters);
  }

  /** The metadata loop over one field that ends at a separator, after which the C string ends. */
  lemma MetaLoopOneField(b: string, m: nat, q: nat, d: Reading)
    requires m <= q < |b| && b[q] in MetaDataDelimiters && Plain(b, m, q, MetaDataDelimiters)
    requires q + 1 == |b| || b[q + 1] == '\0'
    ensures MetaLoop(b, Some(m), d) == Parsed(b[q := '\0'], ApplyMetaToken(d, b[m..q]))
  {
    var b1 := b[q := '\0'];
    CutAt(b, m, q, MetaDataDelimiters);
    MetaLoopStep(b, m, d);
    var d1 := ApplyMetaToken(d, b[m..q]);
    CutEnd(b1, q + 1, q + 1, MetaDataDelimiters);
    MetaLoopStep(b1, q + 1, d1);
    assert ApplyMetaToken(d1, []) == d1;
  }

  /** The value step of a token too short to carry metadata is the model's `ApplyParam`. */
  lemma ShortParamValue(buf: string, p: nat, d: Reading)
    requires p <= |buf| && |CStringAt(buf, p)| < MetadataOffset
    ensures SetParamValue(buf, p, d) == ApplyParam(d, CStringAt(buf, p))
  {
    var param := CStringAt(buf, p);
    if |param| >= 2 {
      CStringAtSuffix(buf, p, 2);
    }
  }

  /** The C string inside the second part of a buffer is the C string of that part. */
  lemma CStringAtShift(a: string, t: string, k: nat)
    ensures CStringAt(a + t, |a| + k) == CStringAt(t, k)
  {
    var s := CStringAt(t, k);
    if k <= |t| {
      CStringAtIs(a + t, |a| + k, s);
    }
  }

  /** A character that neither kind of delimiter nor the terminator stands for. */
  predicate Inert(c: char)
  {
    c !in ParamDelimiters && c !in MetaDataDelimiters && c != '\0'
  }

  // ---------------------------------------------------------------------
  // The loops on the line "P" "da" 7 digits " ;" "ba" 7 digits prefix ";\n"

  /**
   * The potential: cut at its space (index 10), set with scale zero; its
   * metadata loop starts at index 11, reads the rest of the line up to the
   * terminator at 24, cuts the '\n' at 23 and finds no tag.
   */
  lemma CanonicalPotential(b: string, d: Reading, pd: string, ct: string)
    requires |b| >= 25 && |pd| == MantissaDigits && |ct| == 10
    requires At(b, 1, PotentialId + pd) && InertText(PotentialId + pd) && At(b, 12, ct) && InertText(ct)
    requires b[10] == ' ' && b[11] == ';' && b[22] == ';' && b[23] == '\n' && b[24] == '\0'
    ensures ParamLoop(b, Some(1), d) ==
            ParamLoop(b[10 := '\0'][23 := '\0'], Some(11), d.(potential := Some(Value(ParseHex(pd) - OffsetValue, ZeroScale))))
  {
    AtInert(b, 1, PotentialId + pd);
    AtInert(b, 12, ct);
    AtSlice(b, 1, PotentialId + pd);
    var b1 := b[10 := '\0'];
    SeparatorFreeRun(b1, 11, 23);
    ParamLoopCutAt(b, 1, 10, d);
    PotentialParse(b1, d, pd);
  }

  /** `ParseParam` on the potential once its space is cut: the value, then one metadata field without a tag. */
  lemma PotentialParse(b: string, d: Reading, pd: string)
    requires |b| >= 25 && |pd| == MantissaDigits && CStringAt(b, 1) == PotentialId + pd
    requires Plain(b, 11, 23, MetaDataDelimiters) && b[11] == ';' && b[23] == '\n' && b[24] == '\0'
    ensures ParseParamInPlace(b, 1, d) ==
            Parsed(b[23 := '\0'], d.(potential := Some(Value(ParseHex(pd) - OffsetValue, ZeroScale))))
  {
    ShortParamValue(b, 1, d);
    PotentialParamEffect(d, pd);
    UntaggedField(b, 11, 23, d.(potential := Some(Value(ParseHex(pd) - OffsetValue, ZeroScale))));
  }

  /** A metadata loop over one field that starts with ';' changes nothing but the separator after it. */
  lemma UntaggedField(b: string, m: nat, q: nat, d: Reading)
    requires m < q < |b| && b[q] in MetaDataDelimiters && Plain(b, m, q, MetaDataDelimiters)
    requires b[m] == ';' && (q + 1 == |b| || b[q + 1] == '\0')
    ensures MetaLoop(b, Some(m), d) == Parsed(b[q := '\0'], d)
  {
    MetaLoopOneField(b, m, q, d);
    assert b[m..q][0] == ';';
  }

  /** A run of ';' and inert characters holds no metadata separator. */
  lemma SeparatorFreeRun(b: string, from: nat, to: nat)
    requires from <= to <= |b| && forall i :: from <= i < to ==> b[i] == ';' || Inert(b[i])
    ensures Plain(b, from, to, MetaDataDelimiters)
  {
  }

  /** The empty token between " " and ";": no value, and its metadata loop reads the prefix and the ';' at 21-22. */
  lemma CanonicalEmpty(b: string, d: Reading)
    requires |b| >= 25 && b[11] == ';' && Inert(b[21]) && b[22] == ';' && b[23] == '\0'
    ensures ParamLoop(b, Some(11), d) == ParamLoop(b[11 := '\0'], Some(12), ApplyMetaToken(d, [b[21], ';']))
  {
    ParamLoopCutAt(b, 11, 11, d);
    EmptyAfterCut(b, d);
  }

  lemma EmptyAfterCut(b: string, d: Reading)
    requires |b| >= 25 && Inert(b[21]) && b[22] == ';' && b[23] == '\0'
    ensures ParseParamInPlace(b[11 := '\0'], 11, d) == Parsed(b[11 := '\0'], ApplyMetaToken(d, [b[21], ';']))
  {
    var b1 := b[11 := '\0'];
    assert b1[21] == b[21] && b1[22] == ';' && b1[23] == '\0';
    EmptyTokenAt(b1, 11, d);
  }

  /** An empty token whose metadata loop finds one field, a character and a ';', then the terminator. */
  lemma EmptyTokenAt(b: string, p: nat, d: Reading)
    requires p + MetadataOffset + 2 < |b| && b[p] == '\0'
    requires Inert(b[p + MetadataOffset]) && b[p + MetadataOffset + 1] == ';' && b[p + MetadataOffset + 2] == '\0'
    ensures ParseParamInPlace(b, p, d) == Parsed(b, ApplyMetaToken(d, [b[p + MetadataOffset], ';']))
  {
    var m := p + MetadataOffset;
    var field := [b[m], ';'];
    CStringAtIs(b, m, field);
    EmptyTokenData(b, p, d, field);
    ParamKeepsBuffer(b, p, d);
  }

  lemma EmptyTokenData(b: string, p: nat, d: Reading, field: string)
    requires p + MetadataOffset <= |b| && b[p] == '\0'
    requires CStringAt(b, p + MetadataOffset) == field && NoDelimiter(field, MetaDataDelimiters)
    ensures ParseParamInPlace(b, p, d).data == ApplyMetaToken(d, field)
  {
    ParseParamInPlaceMeaning(b, p, d);
    assert ApplyParam(d, []) == d;
    MetadataOfPlainText(d, field);
  }

  /** `ParseParam` leaves the buffer as it is when the C string its metadata loop reads has no separator. */
  lemma ParamKeepsBuffer(b: string, p: nat, d: Reading)
    requires p <= |b|
    requires p + MetadataOffset <= |b| ==> NoDelimiter(CStringAt(b, p + MetadataOffset), MetaDataDelimiters)
    ensures ParseParamInPlace(b, p, d).buf == b
  {
    if p + MetadataOffset <= |b| {
      MetaLoopKeepsBuffer(b, p + MetadataOffset, SetParamValue(b, p, d));
    }
  }

  /** The metadata loop over a C string without separators cuts nothing. */
  lemma MetaLoopKeepsBuffer(b: string, m: nat, d: Reading)
    requires m <= |b| && NoDelimiter(CStringAt(b, m), MetaDataDelimiters)
    ensures MetaLoop(b, Some(m), d).buf == b
  {
    var s := CStringAt(b, m);
    MetaLoopBuffer(b, m, d);
    var r := MetaLoop(b, Some(m), d).buf;
    forall i | 0 <= i < |b|
      ensures r[i] == b[i]
    {
      if m <= i < m + |s| {
        assert b[i] == s[i - m];
      }
    }
  }

  /** The current: cut at the ';' at 22, a ten-character token, so its metadata loop reads nothing. */
  lemma CanonicalCurrent(b: string, d: Reading, cd: string, x: char)
    requires CurrentLayout(b, cd, x) && b[23] == '\0'
    ensures ParamLoop(b, Some(12), d) ==
            ParamLoop(b[22 := '\0'], Some(23), d.(current := Some(Value(ParseHex(cd) - OffsetValue, GetUnitPrefixValue(x)))))
  {
    var b5 := b[22 := '\0'];
    AtInert(b, 12, CurrentId + (cd + [x]));
    AtSlice(b, 12, CurrentId + (cd + [x]));
    ParamLoopCutAt(b, 12, 22, d);
    ParseParamInPlaceMeaning(b5, 12, d);
    CurrentParamEffect(d, cd, x);
    ParamKeepsBuffer(b5, 12, d);
  }

  /** The empty token after the final ';': its metadata loop starts at 33, past the line's terminator. */
  lemma CanonicalTail(b: string, d: Reading)
    requires |b| >= 25 && b[23] == '\0'
    ensures ParamLoop(b, Some(23), d) == ApplyMetadata(d, CStringAt(b, 33))
  {
    ParamLoopEndsAt(b, 23, 23, d);
    ParseParamInPlaceMeaning(b, 23, d);
    assert ApplyParam(d, []) == d;
    NoMetadataChangesNothing(d);
  }

  /** Hexadecimal digits are inert. */
  lemma HexIsInert(s: string)
    requires AllHex(s)
    ensures forall i :: 0 <= i < |s| ==> Inert(s[i])
  {
  }

  /**
   * The whole line "P" "da" 7 digits " ;" "ba" 7 digits prefix ";\n" in the
   * buffer, followed by its terminator and whatever the buffer held after
   * it. The text as written sets the potential and the current as the model
   * does, but then decodes as metadata the field at the prefix (the ";" after
   * it included) and whatever C string the buffer holds 33 characters in,
   * eight characters past the terminator.
   */
  lemma TrailingTokenReadsPastLine(d: Reading, pd: string, cd: string, x: char, tail: string)
    requires |pd| == MantissaDigits && |cd| == MantissaDigits && AllHex(pd) && AllHex(cd) && Inert(x)
    ensures var line := "P" + ((PotentialId + pd) + " ;" + (CurrentId + (cd + [x])) + ";\n");
            var buf := line + ['\0'] + tail;
            'P' in CStringAt(buf, 0) &&
            ParseResponseInPlace(buf, d) ==
              ApplyMetadata(ApplyMetaToken(ApplyResponse(d, line), [x, ';']), CStringAt(tail, 8))
  {
    var line := "P" + ((PotentialId + pd) + " ;" + (CurrentId + (cd + [x])) + ";\n");
    var head := line + ['\0'];
    var b := head + tail;
    var v1 := Some(Value(ParseHex(pd) - OffsetValue, ZeroScale));
    var v2 := Some(Value(ParseHex(cd) - OffsetValue, GetUnitPrefixValue(x)));
    var d1 := d.(potential := v1);
    LayoutFacts(pd, cd, x, tail);
    assert CStringAt(b, 0)[0] == 'P';
    assert IndexOf(CStringAt(b, 0), 'P') == 0;
    assert ParseResponseInPlace(b, d) == ParamLoop(b, Some(1), d);
    CanonicalTrace(b, d, pd, cd, x);
    assert |head| == 25;
    CStringAtShift(head, tail, 8);
    HexHasNoParamDelimiter(pd);
    HexHasNoParamDelimiter(cd);
    NoDelimiterAppend(cd, [x], ParamDelimiters);
    TwoParamLine(d, pd, cd, x);
    assert ApplyResponse(d, line) == d1.(current := v2);
    MetaTokenKeepsValues(d1, [x, ';'], v2);
  }

  /** A metadata field and a new current value commute: the field never touches the value. */
  lemma MetaTokenKeepsValues(d: Reading, t: string, v: Option<Value>)
    ensures ApplyMetaToken(d.(current := v), t) == ApplyMetaToken(d, t).(current := v)
  {
  }

  /** The parameter loop over the canonical line, stated on the positions of its pieces. */
  lemma CanonicalTrace(b: string, d: Reading, pd: string, cd: string, x: char)
    requires |pd| == MantissaDigits && |cd| == MantissaDigits && AllHex(pd) && AllHex(cd) && Inert(x)
    requires |b| >= 25 && At(b, 1, PotentialId + pd) && At(b, 12, CurrentId + (cd + [x]))
    requires b[10] == ' ' && b[11] == ';' && b[22] == ';' && b[23] == '\n' && b[24] == '\0'
    ensures ParamLoop(b, Some(1), d) ==
            ApplyMetadata(ApplyMetaToken(d.(potential := Some(Value(ParseHex(pd) - OffsetValue, ZeroScale))), [x, ';'])
                            .(current := Some(Value(ParseHex(cd) - OffsetValue, GetUnitPrefixValue(x)))),
                          CStringAt(b, 33))
  {
    var ct := CurrentId + (cd + [x]);
    HexTextIsInert(PotentialId, pd, [], '\0');
    HexTextIsInert(CurrentId, cd, [x], x);
    var b2 := b[10 := '\0'][23 := '\0'];
    CurrentLayoutKept(b, cd, x, 10, '\0');
    CurrentLayoutKept(b[10 := '\0'], cd, x, 23, '\0');
    CanonicalPotential(b, d, pd, ct);
    CanonicalRest(b2, d.(potential := Some(Value(ParseHex(pd) - OffsetValue, ZeroScale))), cd, x);
    WriteBefore(b, 10, '\0', 33);
    WriteBefore(b[10 := '\0'], 23, '\0', 33);
  }

  /** The canonical line from the empty token at 11 on. */
  lemma CanonicalRest(b: string, d: Reading, cd: string, x: char)
    requires CurrentLayout(b, cd, x) && b[11] == ';' && b[23] == '\0'
    ensures ParamLoop(b, Some(11), d) ==
            ApplyMetadata(ApplyMetaToken(d, [x, ';']).(current := Some(Value(ParseHex(cd) - OffsetValue, GetUnitPrefixValue(x)))),
                          CStringAt(b, 33))
  {
    assert b[21] == (CurrentId + (cd + [x]))[9];
    CanonicalEmpty(b, d);
    CurrentLayoutKept(b, cd, x, 11, '\0');
    CanonicalLast(b[11 := '\0'], ApplyMetaToken(d, [x, ';']), cd, x);
    WriteBefore(b, 11, '\0', 33);
  }

  /** The canonical line from the current on: the current, then the empty token after it. */
  lemma CanonicalLast(b: string, d: Reading, cd: string, x: char)
    requires CurrentLayout(b, cd, x) && b[23] == '\0'
    ensures ParamLoop(b, Some(12), d) ==
            ApplyMetadata(d.(current := Some(Value(ParseHex(cd) - OffsetValue, GetUnitPrefixValue(x)))), CStringAt(b, 33))
  {
    CanonicalCurrent(b, d, cd, x);
    CanonicalTail(b[22 := '\0'], d.(current := Some(Value(ParseHex(cd) - OffsetValue, GetUnitPrefixValue(x)))));
    WriteBefore(b, 22, '\0', 33);
  }

  /** The current of the canonical line and the ';' after it sit at 12 to 22. */
  predicate CurrentLayout(b: string, cd: string, x: char)
  {
    |b| >= 25 && |cd| == MantissaDigits && At(b, 12, CurrentId + (cd + [x])) &&
    InertText(CurrentId + (cd + [x])) && b[22] == ';'
  }

  lemma CurrentLayoutKept(b: string, cd: string, x: char, q: nat, c: char)
    requires CurrentLayout(b, cd, x) && q < |b| && (q < 12 || q == 23)
    ensures CurrentLayout(b[q := c], cd, x)
  {
    AtUpdate(b, 12, CurrentId + (cd + [x]), q, c);
  }

  /** A write before the start of a C string leaves it as it is. */
  lemma WriteBefore(b: string, q: nat, c: char, p: nat)
    requires q < p && q < |b|
    ensures CStringAt(b[q := c], p) == CStringAt(b, p)
  {
    CStringAtAgree(b[q := c], b, p);
  }

  /** `t` sits in `b` from `from` on. */
  predicate At(b: string, from: nat, t: string)
  {
    from + |t| <= |b| && forall i :: 0 <= i < |t| ==> b[from + i] == t[i]
  }

  predicate InertText(t: string)
  {
    forall i :: 0 <= i < |t| ==> Inert(t[i])
  }

  lemma AtSlice(b: string, from: nat, t: string)
    requires At(b, from, t)
    ensures b[from..from + |t|] == t
  {
  }

  lemma AtInert(b: string, from: nat, t: string)
    requires At(b, from, t) && InertText(t)
    ensures forall i :: from <= i < from + |t| ==> Inert(b[i])
  {
    forall i | from <= i < from + |t|
      ensures Inert(b[i])
    {
      assert b[i] == t[i - from];
    }
  }

  /** Writing outside a piece keeps it in place. */
  lemma AtUpdate(b: string, from: nat, t: string, q: nat, c: char)
    requires At(b, from, t) && q < |b| && (q < from || from + |t| <= q)
    ensures At(b[q := c], from, t)
  {
  }

  /** An identifier, hexadecimal digits and inert characters make inert text. */
  lemma HexTextIsInert(id: string, digits: string, more: string, c: char)
    requires id == PotentialId || id == CurrentId
    requires AllHex(digits) && (more == [] || (more == [c] && Inert(c)))
    ensures InertText(id + (digits + more)) && InertText(id + digits)
  {
    HexIsInert(digits);
  }

  /** Where the pieces of the canonical line sit in the buffer. */
  lemma LayoutFacts(pd: string, cd: string, x: char, tail: string)
    requires |pd| == MantissaDigits && |cd| == MantissaDigits
    ensures var b := "P" + ((PotentialId + pd) + " ;" + (CurrentId + (cd + [x])) + ";\n") + ['\0'] + tail;
            |b| == 25 + |tail| && b[0] == 'P' &&
            At(b, 1, PotentialId + pd) && At(b, 12, CurrentId + (cd + [x])) &&
            b[10] == ' ' && b[11] == ';' && b[22] == ';' && b[23] == '\n' && b[24] == '\0'
  {
  }

  /** What the metadata loop leaves: inert text stays in place, a '\0' stays a '\0'. */
  lemma MetaLoopKeeps(b: string, m: nat, d: Reading, from: nat, t: string, q: nat)
    requires m <= |b| && At(b, from, t) && InertText(t) && q < |b| && b[q] == '\0'
    ensures var r := MetaLoop(b, Some(m), d).buf;
            At(r, from, t) && r[q] == '\0'
  {
    CutLoopKeeps(b, m, from, t, q);
  }

  lemma CutLoopKeeps(b: string, m: nat, from: nat, t: string, q: nat)
    requires m <= |b| && At(b, from, t) && InertText(t) && q < |b| && b[q] == '\0'
    ensures var r := CutLoop(b, Some(m));
            At(r, from, t) && r[q] == '\0'
  {
    CutLoopBlanks(b, m);
    var r := CutLoop(b, Some(m));
    forall i | 0 <= i < |t|
      ensures r[from + i] == t[i]
    {
      assert b[from + i] == t[i] && Inert(t[i]);
    }
  }

  /** The metadata loop cuts the first separator of the C string it reads. */
  lemma MetaLoopCutsAt(b: string, m: nat, d: Reading, q: nat)
    requires m <= q < |b| && b[q] in MetaDataDelimiters && forall i :: m <= i <= q ==> b[i] != '\0'
    ensures MetaLoop(b, Some(m), d).buf[q] == '\0'
  {
    MetaLoopBuffer(b, m, d);
    CStringAtReaches(b, m, q - m);
  }

  // ---------------------------------------------------------------------
  // A potential whose space is cut, followed by a current and a ','

  /**
   * The start of a line "P" "da" 7 digits " ;" "ba" 7 digits prefix ",":
   * a current parameter followed by a metadata field.
   */
  predicate ShortLayout(b: string, pd: string, cd: string, x: char)
  {
    |b| >= 23 && |pd| == MantissaDigits && |cd| == MantissaDigits &&
    At(b, 1, PotentialId + pd) && InertText(PotentialId + pd) &&
    At(b, 12, CurrentId + (cd + [x])) && InertText(CurrentId + (cd + [x])) &&
    b[10] == ' ' && b[11] == ';' && b[22] == ','
  }

  /**
   * The potential's metadata loop starts at 11 and so cuts the ',' at 22,
   * which ends the current's token there; the potential is set with scale zero.
   */
  lemma ShortPotential(b: string, d: Reading, pd: string, cd: string, x: char)
    requires ShortLayout(b, pd, cd, x)
    ensures var parsed := ParseParamInPlace(b[10 := '\0'], 1, d);
            parsed.data.potential == Some(Value(ParseHex(pd) - OffsetValue, ZeroScale)) &&
            At(parsed.buf, 12, CurrentId + (cd + [x])) && parsed.buf[11] == ';' && parsed.buf[22] == '\0'
  {
    var b1 := b[10 := '\0'];
    var ct := CurrentId + (cd + [x]);
    AtInert(b, 1, PotentialId + pd);
    AtInert(b, 12, ct);
    AtSlice(b, 1, PotentialId + pd);
    CStringAtIs(b1, 1, PotentialId + pd);
    ShortParamValue(b1, 1, d);
    PotentialParamEffect(d, pd);
    var d1 := SetParamValue(b1, 1, d);
    AtUpdate(b, 12, ct, 10, '\0');
    MetaLoopCutsAt(b1, 11, d1, 22);
    MetaLoopBuffer(b1, 11, d1);
    MetaLoopKeepsAt(b1, 11, d1, 12, ct);
  }

  /** The metadata loop leaves inert text in place. */
  lemma MetaLoopKeepsAt(b: string, m: nat, d: Reading, from: nat, t: string)
    requires m <= |b| && At(b, from, t) && InertText(t)
    ensures At(MetaLoop(b, Some(m), d).buf, from, t)
  {
    CutLoopBlanks(b, m);
    var r := CutLoop(b, Some(m));
    forall i | 0 <= i < |t|
      ensures r[from + i] == t[i]
    {
      assert b[from + i] == t[i] && Inert(t[i]);
    }
  }

  /** The empty token at 11 changes no value; the token after it is the current, ended by the '\0' at 22. */
  lemma ShortRest(b: string, d: Reading, cd: string, x: char)
    requires |b| >= 23 && |cd| == MantissaDigits && b[11] == ';' && b[22] == '\0'
    requires At(b, 12, CurrentId + (cd + [x])) && InertText(CurrentId + (cd + [x]))
    ensures var r := ParamLoop(b, Some(11), d);
            r.potential == d.potential &&
            r.current == Some(Value(ParseHex(cd) - OffsetValue, GetUnitPrefixValue(x)))
  {
    var ct := CurrentId + (cd + [x]);
    var b3 := b[11 := '\0'];
    ParamLoopCutAt(b, 11, 11, d);
    AtUpdate(b, 12, ct, 11, '\0');
    CutLoopKeeps(b3, 21, 12, ct, 22);
    var parsed := ParseParamInPlace(b3, 11, d);
    assert SetParamValue(b3, 11, d) == d;
    ShortCurrent(parsed.buf, parsed.data, cd, x);
  }

  /** The current's token ends at the '\0' at 22: the loop's last token. */
  lemma ShortCurrent(b: string, d: Reading, cd: string, x: char)
    requires |b| >= 23 && |cd| == MantissaDigits && b[22] == '\0'
    requires At(b, 12, CurrentId + (cd + [x])) && InertText(CurrentId + (cd + [x]))
    ensures ParamLoop(b, Some(12), d) == d.(current := Some(Value(ParseHex(cd) - OffsetValue, GetUnitPrefixValue(x))))
  {
    AtInert(b, 12, CurrentId + (cd + [x]));
    AtSlice(b, 12, CurrentId + (cd + [x]));
    ParamLoopEndsAt(b, 12, 22, d);
    ParseParamInPlaceMeaning(b, 12, d);
    CurrentParamEffect(d, cd, x);
  }

  /**
   * On any buffer that starts "P" "da" 7 digits " ;" "ba" 7 digits prefix
   * ",", the text as written sets the potential (scale zero) and the current
   * and decodes no parameter after the current, whatever follows.
   */
  lemma ShortTokenEndsLoop(b: string, d: Reading, pd: string, cd: string, x: char)
    requires ShortLayout(b, pd, cd, x) && b[0] == 'P'
    ensures 'P' in CStringAt(b, 0)
    ensures var r := ParseResponseInPlace(b, d);
            r.potential == Some(Value(ParseHex(pd) - OffsetValue, ZeroScale)) &&
            r.current == Some(Value(ParseHex(cd) - OffsetValue, GetUnitPrefixValue(x)))
  {
    assert CStringAt(b, 0)[0] == 'P';
    assert IndexOf(CStringAt(b, 0), 'P') == 0;
    ShortLoop(b, d, pd, cd, x);
  }

  lemma ShortLoop(b: string, d: Reading, pd: string, cd: string, x: char)
    requires ShortLayout(b, pd, cd, x)
    ensures var r := ParamLoop(b, Some(1), d);
            r.potential == Some(Value(ParseHex(pd) - OffsetValue, ZeroScale)) &&
            r.current == Some(Value(ParseHex(cd) - OffsetValue, GetUnitPrefixValue(x)))
  {
    AtInert(b, 1, PotentialId + pd);
    ParamLoopCutAt(b, 1, 10, d);
    ShortPotential(b, d, pd, cd, x);
    var parsed := ParseParamInPlace(b[10 := '\0'], 1, d);
    ShortRest(parsed.buf, parsed.data, cd, x);
  }

  /**
   * The line "P" "da" 7 digits " ;" "ba" 7 digits prefix "," metadata ";"
   * "da" 7 digits prefix ";\n" (for instance
   * "Pda8000000 ;ba8000032u,14;da8000010u;\n"): the model decodes the
   * second potential, the text as written stops after the current and keeps
   * the first.
   */
  lemma ShortTokenCutsLine(d: Reading, pd: string, cd: string, x: char, m: string, pd2: string, x2: char, tail: string)
    requires |pd| == MantissaDigits && |cd| == MantissaDigits && |pd2| == MantissaDigits
    requires AllHex(pd) && AllHex(cd) && AllHex(pd2) && Inert(x)
    requires x2 !in ParamDelimiters && NoDelimiter(m, ParamDelimiters)
    ensures var line := "P" + ((PotentialId + pd) + " ;" + (CurrentId + (cd + [x]) + "," + m) + ";" + (PotentialId + (pd2 + [x2])) + ";\n");
            var buf := line + ['\0'] + tail;
            'P' in CStringAt(buf, 0) &&
            ParseResponseInPlace(buf, d).potential == Some(Value(ParseHex(pd) - OffsetValue, ZeroScale)) &&
            ParseResponseInPlace(buf, d).current == ApplyResponse(d, line).current &&
            ApplyResponse(d, line).potential == Some(Value(ParseHex(pd2) - OffsetValue, GetUnitPrefixValue(x2)))
  {
    LineRegroup(PotentialId + pd, CurrentId + (cd + [x]), m, PotentialId + (pd2 + [x2]), tail);
    ShortTokenAsWritten(d, pd, cd, x, m + ";" + (PotentialId + (pd2 + [x2])) + ";\n" + ['\0'] + tail);
    ShortTokenModel(d, pd, cd, x, m, pd2, x2);
  }

  lemma LineRegroup(a: string, b: string, m: string, c: string, tail: string)
    ensures "P" + (a + " ;" + (b + "," + m) + ";" + c + ";\n") + ['\0'] + tail ==
            "P" + a + " ;" + b + "," + (m + ";" + c + ";\n" + ['\0'] + tail)
  {
  }

  /** The text as written on a buffer that starts with a potential, a current and a ','. */
  lemma ShortTokenAsWritten(d: Reading, pd: string, cd: string, x: char, rest: string)
    requires |pd| == MantissaDigits && |cd| == MantissaDigits && AllHex(pd) && AllHex(cd) && Inert(x)
    ensures var buf := "P" + (PotentialId + pd) + " ;" + (CurrentId + (cd + [x])) + "," + rest;
            'P' in CStringAt(buf, 0) &&
            ParseResponseInPlace(buf, d).potential == Some(Value(ParseHex(pd) - OffsetValue, ZeroScale)) &&
            ParseResponseInPlace(buf, d).current == Some(Value(ParseHex(cd) - OffsetValue, GetUnitPrefixValue(x)))
  {
    var buf := "P" + (PotentialId + pd) + " ;" + (CurrentId + (cd + [x])) + "," + rest;
    ShortLayoutOf(pd, cd, x, rest);
    HexTextIsInert(PotentialId, pd, [], '\0');
    HexTextIsInert(CurrentId, cd, [x], x);
    ShortTokenEndsLoop(buf, d, pd, cd, x);
  }

  /** The model on the same line: the current, then the second potential. */
  lemma ShortTokenModel(d: Reading, pd: string, cd: string, x: char, m: string, pd2: string, x2: char)
    requires |pd| == MantissaDigits && |cd| == MantissaDigits && |pd2| == MantissaDigits
    requires AllHex(pd) && AllHex(cd) && AllHex(pd2) && Inert(x)
    requires x2 !in ParamDelimiters && NoDelimiter(m, ParamDelimiters)
    ensures var line := "P" + ((PotentialId + pd) + " ;" + (CurrentId + (cd + [x]) + "," + m) + ";" + (PotentialId + (pd2 + [x2])) + ";\n");
            ApplyResponse(d, line).current == Some(Value(ParseHex(cd) - OffsetValue, GetUnitPrefixValue(x))) &&
            ApplyResponse(d, line).potential == Some(Value(ParseHex(pd2) - OffsetValue, GetUnitPrefixValue(x2)))
  {
    MetadataThenPotentialLine(d, pd, cd, x, m, pd2, x2);
    MetadataLastTagWins(d.(potential := Some(Value(ParseHex(pd2) - OffsetValue, GetUnitPrefixValue(x2))),
                           current := Some(Value(ParseHex(cd) - OffsetValue, GetUnitPrefixValue(x)))), "," + m);
  }

  /** Where the pieces of a line that starts with a potential, a current and a ',' sit. */
  lemma ShortLayoutOf(pd: string, cd: string, x: char, rest: string)
    requires |pd| == MantissaDigits && |cd| == MantissaDigits
    ensures var b := "P" + (PotentialId + pd) + " ;" + (CurrentId + (cd + [x])) + "," + rest;
            b[0] == 'P' && |b| >= 23 && At(b, 1, PotentialId + pd) && At(b, 12, CurrentId + (cd + [x])) &&
            b[10] == ' ' && b[11] == ';' && b[22] == ','
  {
  }

  /**
   * The canonical line in a buffer that still holds "14" and a '\0' eight
   * characters past the line's terminator (from an earlier, longer line):
   * the text as written reports an underload that the line does not carry.
   */
  lemma StaleBytesSetStatus(d: Reading, pd: string, cd: string, x: char, pad: string, rest: string)
    requires |pd| == MantissaDigits && |cd| == MantissaDigits && AllHex(pd) && AllHex(cd) && Inert(x)
    requires x != StatusTag && x != CurrentRangeTag && |pad| == 8
    ensures var line := "P" + ((PotentialId + pd) + " ;" + (CurrentId + (cd + [x])) + ";\n");
            var buf := line + ['\0'] + (pad + "14" + ['\0'] + rest);
            'P' in CStringAt(buf, 0) &&
            ParseResponseInPlace(buf, d) == ApplyResponse(d, line).(status := Some(StatusUnderload)) &&
            ApplyResponse(d, line).status == d.status
  {
    var line := "P" + ((PotentialId + pd) + " ;" + (CurrentId + (cd + [x])) + ";\n");
    var tail := pad + "14" + ['\0'] + rest;
    TrailingTokenReadsPastLine(d, pd, cd, x, tail);
    StaleField(pad, rest);
    HexHasNoParamDelimiter(pd);
    HexHasNoParamDelimiter(cd);
    NoDelimiterAppend(cd, [x], ParamDelimiters);
    TwoParamLine(d, pd, cd, x);
    var model := ApplyResponse(d, line);
    assert ApplyMetaToken(model, [x, ';']) == model;
    UnderloadField(model);
  }

  lemma StaleField(pad: string, rest: string)
    requires |pad| == 8
    ensures CStringAt(pad + "14" + ['\0'] + rest, 8) == "14"
  {
    CStringAtIs(pad + "14" + ['\0'] + rest, 8, "14");
  }

  /** A metadata string that is the single field "14" reports an underload. */
  lemma UnderloadField(d: Reading)
    ensures ApplyMetadata(d, "14") == d.(status := Some(StatusUnderload))
  {
    MetadataOfPlainText(d, "14");
    StatusOfFourteen();
  }

  /** The status field "14" is an underload. */
  lemma StatusOfFourteen()
    ensures GetReadingStatusFromPackage("14") == Some(StatusUnderload)
  {
    assert "14"[1..] == "4";
    assert ParseHex("4") == 4 by {
      HexPrefixOfDigits("4");
    }
    StatusExamples();
  }
}
