/**
 * Line framing: `ReadBuf` collects the bytes of one reply line into a
 * 100-character buffer and classifies the line; `ReceivePackage` decodes the
 * line when it is a data point.
 *
 * The serial read function is modelled as the sequence of values it returns,
 * in order; a method returns how many of them it consumed.
 */
module LineReader {
  import opened Wrappers
  import opened MSComm
  import opened Parser

  /** What one call of the read function returns: a byte, or zero or less for "nothing". */
  type ReadResult = x: int | x <= 255

  datatype RetCode = Ok | Null | ResponseBegin | Measuring | MeasurementDone | ResponseEnd | NotImplemented

  /** Size of the line buffer; at most one less than this many bytes are stored. */
  const LineCapacity: nat := 100

  const MaxLineBytes: nat := LineCapacity - 1

  /** The code of a completed line (one that ends in '\n'), checked in a fixed order. */
  function Classify(line: string): (code: RetCode)
    ensures code == Measuring <==> |line| > 0 && line[0] == ReplyMarker(ReplyMeasuring)
    ensures code == MeasurementDone <==> line == [ReplyMarker(ReplyEndOfMeasLoop), '\n']
    ensures code == ResponseEnd <==> line == "\n"
    ensures code == Ok <==> |line| > 0 && line[0] == ReplyMarker(ReplyMeasureDp)
    ensures code == NotImplemented <==>
              (line == [] || line[0] !in {ReplyMarker(ReplyMeasuring), ReplyMarker(ReplyMeasureDp)}) &&
              line != [ReplyMarker(ReplyEndOfMeasLoop), '\n'] && line != "\n"
    ensures code !in {Null, ResponseBegin}
  {
    if |line| > 0 && line[0] == ReplyMarker(ReplyMeasuring) then Measuring
    else if line == [ReplyMarker(ReplyEndOfMeasLoop), '\n'] then MeasurementDone
    else if line == "\n" then ResponseEnd
    else if |line| > 0 && line[0] == ReplyMarker(ReplyMeasureDp) then Ok
    else NotImplemented
  }

  /** The bytes a sequence of reads delivers: every positive value, in order. */
  function Bytes(results: seq<ReadResult>): string
  {
    if results == [] then []
    else
      var last := results[|results| - 1];
      Bytes(results[..|results| - 1]) + (if last > 0 then [last as char] else [])
  }

  /**
   * The outcome of reading one line: the code (`None` when the reads ran out
   * first), the bytes stored in the buffer, and how many reads were used.
   */
  datatype LineRead = LineRead(code: Option<RetCode>, stored: string, consumed: nat)

  /** The read loop from read `k` on, with `stored` already in the buffer. */
  function Scan(chan: seq<ReadResult>, k: nat, stored: string): (r: LineRead)
    requires k <= |chan| && |stored| < MaxLineBytes
    ensures k <= r.consumed <= |chan|
    ensures stored <= r.stored && |r.stored| <= MaxLineBytes
    ensures r.code.None? ==> r.consumed == |chan|
    ensures r.code.Some? ==> |r.stored| > |stored|
    decreases |chan| - k
  {
    if k == |chan| then LineRead(None, stored, k)
    else if chan[k] <= 0 then Scan(chan, k + 1, stored)
    else
      var stored := stored + [chan[k] as char];
      if stored[0] == 'e' then LineRead(Some(ResponseBegin), stored, k + 1)
      else if chan[k] as char == '\n' then LineRead(Some(Classify(stored)), stored, k + 1)
      else if |stored| < MaxLineBytes then Scan(chan, k + 1, stored)
      else LineRead(Some(Null), stored, k + 1)
  }

  /**
   * One call of the read loop from an empty buffer. A code comes with at
   * least one stored byte; without one, every read was used and every
   * positive one stored.
   */
  function ReadLine(chan: seq<ReadResult>): (r: LineRead)
    ensures r.consumed <= |chan| && |r.stored| <= MaxLineBytes
    ensures r.code.Some? ==> r.stored != []
    ensures r.code.None? ==> r.consumed == |chan| && r.stored == Bytes(chan)
  {
    ScanStores(chan, 0, []);
    assert chan[..|chan|] == chan;
    Scan(chan, 0, [])
  }

  predicate NewlineOnlyLast(s: string)
  {
    forall j :: 0 <= j < |s| - 1 ==> s[j] != '\n'
  }

  predicate EndsLine(s: string)
  {
    |s| > 0 && s[|s| - 1] == '\n'
  }

  lemma BytesStep(chan: seq<ReadResult>, k: nat)
    requires k < |chan|
    ensures Bytes(chan[..k + 1]) == Bytes(chan[..k]) + (if chan[k] > 0 then [chan[k] as char] else [])
  {
    assert chan[..k + 1][..k] == chan[..k];
  }

  /** What the loop keeps true from one read to the next: the buffer holds the positive reads so far. */
  lemma {:induction false} ScanStores(chan: seq<ReadResult>, k: nat, stored: string)
    requires k <= |chan| && |stored| < MaxLineBytes && stored == Bytes(chan[..k])
    ensures var r := Scan(chan, k, stored);
            k <= r.consumed <= |chan| && r.stored == Bytes(chan[..r.consumed]) &&
            stored <= r.stored && |r.stored| <= MaxLineBytes &&
            (r.code.Some? ==> r.consumed > k && chan[r.consumed - 1] > 0)
    decreases |chan| - k
  {
    if k < |chan| {
      BytesStep(chan, k);
      if chan[k] <= 0 {
        ScanStores(chan, k + 1, stored);
      } else {
        var next := stored + [chan[k] as char];
        assert next[..|stored|] == stored;
        if next[0] != 'e' && chan[k] as char != '\n' && |next| < MaxLineBytes {
          ScanStores(chan, k + 1, next);
        }
      }
    }
  }

  /** A newline ends the line, so it can only be the last byte stored. */
  lemma {:induction false} ScanNewlineLast(chan: seq<ReadResult>, k: nat, stored: string)
    requires k <= |chan| && |stored| < MaxLineBytes && '\n' !in stored
    ensures NewlineOnlyLast(Scan(chan, k, stored).stored)
    decreases |chan| - k
  {
    if k < |chan| {
      if chan[k] <= 0 {
        ScanNewlineLast(chan, k + 1, stored);
      } else {
        var next := stored + [chan[k] as char];
        if next[0] != 'e' && chan[k] as char != '\n' && |next| < MaxLineBytes {
          assert '\n' !in next;
          ScanNewlineLast(chan, k + 1, next);
        }
      }
    }
  }

  /** How the loop's exit decides the code. */
  lemma {:induction false} ScanCodes(chan: seq<ReadResult>, k: nat, stored: string)
    requires k <= |chan| && |stored| < MaxLineBytes && !EndsLine(stored)
    requires |stored| > 0 ==> stored[0] != 'e'
    ensures var r := Scan(chan, k, stored);
            (r.code == Some(ResponseBegin) <==> |r.stored| > 0 && r.stored[0] == 'e') &&
            (r.code == Some(ResponseBegin) ==> |r.stored| == 1) &&
            (r.code == Some(Null) <==> |r.stored| == MaxLineBytes && !EndsLine(r.stored)) &&
            (r.code.None? ==> r.consumed == |chan| && |r.stored| < MaxLineBytes && !EndsLine(r.stored)) &&
            (r.code.Some? && r.code.value !in {ResponseBegin, Null} <==> EndsLine(r.stored) && r.stored[0] != 'e') &&
            (EndsLine(r.stored) && r.stored[0] != 'e' ==> r.code == Some(Classify(r.stored)))
    decreases |chan| - k
  {
    if k < |chan| {
      if chan[k] <= 0 {
        ScanCodes(chan, k + 1, stored);
      } else {
        var next := stored + [chan[k] as char];
        assert next[|next| - 1] == chan[k] as char;
        if next[0] != 'e' && chan[k] as char != '\n' && |next| < MaxLineBytes {
          ScanCodes(chan, k + 1, next);
        }
      }
    }
  }

  /**
   * What a call of `ReadBuf` stores and returns: the positive reads up to the
   * point it stopped, at most 99 bytes, with a newline only at the end.
   * A first byte 'e' stops it at once with exactly that byte; 99 bytes
   * without a newline give CODE_NULL; a newline completes the line, which is
   * then classified; and without either the reads ran out.
   */
  lemma ReadLineSpec(chan: seq<ReadResult>)
    ensures var r := ReadLine(chan);
            r.consumed <= |chan| && r.stored == Bytes(chan[..r.consumed]) &&
            |r.stored| <= MaxLineBytes && NewlineOnlyLast(r.stored) &&
            (r.code.Some? ==> r.consumed > 0 && chan[r.consumed - 1] > 0) &&
            (r.code == Some(ResponseBegin) <==> |r.stored| > 0 && r.stored[0] == 'e') &&
            (r.code == Some(ResponseBegin) ==> |r.stored| == 1) &&
            (r.code == Some(Null) <==> |r.stored| == MaxLineBytes && !EndsLine(r.stored)) &&
            (r.code.None? ==> r.consumed == |chan| && |r.stored| < MaxLineBytes && !EndsLine(r.stored)) &&
            (r.code.Some? && r.code.value !in {ResponseBegin, Null} <==> EndsLine(r.stored) && r.stored[0] != 'e') &&
            (EndsLine(r.stored) && r.stored[0] != 'e' ==> r.code == Some(Classify(r.stored)))
  {
    assert chan[..0] == [];
    ScanStores(chan, 0, []);
    ScanNewlineLast(chan, 0, []);
    ScanCodes(chan, 0, []);
  }

  /** The loop depends only on the reads it has not consumed yet. */
  lemma {:induction false} ScanShift(a: seq<ReadResult>, b: seq<ReadResult>, k: nat, j: nat, stored: string)
    requires k <= |a| && j <= |b| && j <= k && a[k..] == b[j..] && |stored| < MaxLineBytes
    ensures Scan(a, k, stored).code == Scan(b, j, stored).code
    ensures Scan(a, k, stored).stored == Scan(b, j, stored).stored
    ensures Scan(a, k, stored).consumed == Scan(b, j, stored).consumed + (k - j)
    ensures Scan(b, j, stored).consumed >= j
    decreases |a| - k
  {
    if k < |a| {
      assert a[k] == a[k..][0] == b[j..][0] == b[j];
      assert a[k + 1..] == a[k..][1..] == b[j..][1..] == b[j + 1..];
      if a[k] <= 0 {
        ScanShift(a, b, k + 1, j + 1, stored);
      } else {
        var next := stored + [a[k] as char];
        if next[0] != 'e' && a[k] as char != '\n' && |next| < MaxLineBytes {
          ScanShift(a, b, k + 1, j + 1, next);
        }
      }
    }
  }

  /**
   * Reads of zero or less are skipped: taking one out of the sequence leaves
   * the code and the stored bytes as they were, with one read fewer consumed
   * when the line reached it.
   */
  lemma SkippedRead(chan: seq<ReadResult>, k: nat)
    requires k < |chan| && chan[k] <= 0
    ensures var r := ReadLine(chan);
            var s := ReadLine(chan[..k] + chan[k + 1..]);
            r.code == s.code && r.stored == s.stored &&
            r.consumed == s.consumed + (if r.consumed > k then 1 else 0)
  {
    var dropped := chan[..k] + chan[k + 1..];
    ScanSkips(chan, dropped, 0, k, []);
  }

  /** Before the skipped read both sequences agree; after it they are shifted by one. */
  lemma {:induction false} ScanSkips(chan: seq<ReadResult>, dropped: seq<ReadResult>, i: nat, k: nat, stored: string)
    requires k < |chan| && chan[k] <= 0 && dropped == chan[..k] + chan[k + 1..]
    requires i <= k && |stored| < MaxLineBytes
    ensures Scan(chan, i, stored).code == Scan(dropped, i, stored).code
    ensures Scan(chan, i, stored).stored == Scan(dropped, i, stored).stored
    ensures Scan(chan, i, stored).consumed ==
              Scan(dropped, i, stored).consumed + (if Scan(chan, i, stored).consumed > k then 1 else 0)
    decreases k - i
  {
    if i == k {
      assert chan[k + 1..] == dropped[k..];
      ScanShift(chan, dropped, k + 1, k, stored);
    } else {
      assert dropped[i] == chan[i];
      if chan[i] <= 0 {
        ScanSkips(chan, dropped, i + 1, k, stored);
      } else {
        var next := stored + [chan[i] as char];
        if next[0] != 'e' && chan[i] as char != '\n' && |next| < MaxLineBytes {
          ScanSkips(chan, dropped, i + 1, k, next);
        }
      }
    }
  }

  /** The concrete lines the framing is meant for (10 is '\n'). */
  lemma ReadLineExamples()
    ensures ReadLine([0, -1, 101, 10]) == LineRead(Some(ResponseBegin), "e", 3)
    ensures ReadLine([42, 10]) == LineRead(Some(MeasurementDone), "*\n", 2)
    ensures ReadLine([10]) == LineRead(Some(ResponseEnd), "\n", 1)
    ensures ReadLine([77, 48, 10]).code == Some(Measuring)
    ensures ReadLine([80, 0, 10]) == LineRead(Some(Ok), "P\n", 3)
    ensures ReadLine([116, 10]).code == Some(NotImplemented)
    ensures ReadLine([80]) == LineRead(None, "P", 1)
  {
    assert [] + ['*'] + ['\n'] == "*\n";
    assert [] + ['P'] + ['\n'] == "P\n";
  }

  /** The characters of a buffer up to its first '\0', as `strcmp` and `strchr` see them. */
  function CString(buf: seq<char>): (s: string)
    ensures s <= buf && '\0' !in s
    ensures |s| < |buf| ==> buf[|s|] == '\0'
  {
    if buf == [] || buf[0] == '\0' then [] else [buf[0]] + CString(buf[1..])
  }

  /** A buffer that holds a line without '\0' and then '\0' reads back as that line. */
  lemma {:induction false} CStringOfTerminated(buf: seq<char>, line: string)
    requires |line| < |buf| && buf[..|line|] == line && buf[|line|] == '\0' && '\0' !in line
    ensures CString(buf) == line
  {
    if line != [] {
      assert buf[1..][..|line| - 1] == line[1..];
      CStringOfTerminated(buf[1..], line[1..]);
    }
  }

  /** Bytes never include '\0': only positive reads are stored. */
  lemma {:induction false} BytesHaveNoNul(results: seq<ReadResult>)
    ensures '\0' !in Bytes(results)
  {
    if results != [] {
      BytesHaveNoNul(results[..|results| - 1]);
    }
  }

  /**
   * Reads one line into `buf`. Every outcome but "reads ran out" and
   * CODE_RESPONSE_BEGIN leaves the stored bytes '\0'-terminated; no byte
   * past the stored bytes and their terminator is written.
   */
  method ReadBuf(chan: seq<ReadResult>, buf: array<char>) returns (code: Option<RetCode>, consumed: nat)
    requires buf.Length >= LineCapacity
    modifies buf
    ensures var r := ReadLine(chan);
            code == r.code && consumed == r.consumed && |r.stored| < buf.Length &&
            buf[..|r.stored|] == r.stored
    ensures code.Some? && code != Some(ResponseBegin) ==> buf[|ReadLine(chan).stored|] == '\0'
    ensures code.None? || code == Some(ResponseBegin) ==>
              buf[|ReadLine(chan).stored|] == old(buf[|ReadLine(chan).stored|])
    ensures forall j :: |ReadLine(chan).stored| < j < buf.Length ==> buf[j] == old(buf[j])
  {
    var i := 0;
    var k := 0;
    while true
      invariant 0 <= i < MaxLineBytes && k <= |chan|
      invariant Scan(chan, k, buf[..i]) == ReadLine(chan)
      invariant forall j :: i <= j < buf.Length ==> buf[j] == old(buf[j])
      decreases |chan| - k
    {
      if k == |chan| {
        return None, k;
      }
      var tempChar := chan[k];
      k := k + 1;
      if tempChar > 0 {
        ghost var before := buf[..i];
        buf[i] := tempChar as char;
        i := i + 1;
        assert buf[..i] == before + [tempChar as char];
        if buf[0] == 'e' {
          return Some(ResponseBegin), k;
        }
        if tempChar as char == '\n' {
          buf[i] := '\0';
          return Some(Classify(buf[..i])), k;
        }
      }
      if i >= MaxLineBytes {
        buf[i] := '\0';
        return Some(Null), k;
      }
    }
  }

  /**
   * Reads one line and, only when it is a data point (CODE_OK), decodes it
   * into `data`; the code from the read is returned unchanged.
   */
  method ReceivePackage(chan: seq<ReadResult>, data: MeasureData) returns (code: Option<RetCode>, consumed: nat)
    modifies data
    ensures code == ReadLine(chan).code && consumed == ReadLine(chan).consumed
    ensures code == Some(Ok) ==>
              'P' in ReadLine(chan).stored &&
              data.Snapshot() == ApplyResponse(old(data.Snapshot()), ReadLine(chan).stored)
    ensures code != Some(Ok) ==> data.Snapshot() == old(data.Snapshot())
  {
    var bufferLine := new char[LineCapacity];
    code, consumed := ReadBuf(chan, bufferLine);
    if code != Some(Ok) {
      return;
    }
    ghost var r := ReadLine(chan);
    ReadLineSpec(chan);
    BytesHaveNoNul(chan[..r.consumed]);
    CStringOfTerminated(bufferLine[..], r.stored);
    var line := CString(bufferLine[..]);
    assert line[0] == 'P';
    data.ParseResponse(line);
  }

}
