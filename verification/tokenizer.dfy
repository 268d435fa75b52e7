/**
 * The `strsep`-style tokenizer `strtokenize`.
 *
 * The C function keeps a cursor (`*stringp`) into a line, overwrites the
 * first delimiter at or after the cursor with '\0' and moves the cursor past
 * it. Here the line is a value and the cursor an index into it (`None`
 * standing for NULL); the token is the slice that the written '\0' would end.
 */
module Tokenizer {
  import opened Wrappers

  /** Separators between the parameters of a data line. */
  const ParamDelimiters: string := " ;\n"

  /** Separators between the metadata fields of one parameter. */
  const MetaDataDelimiters: string := ",\n"

  predicate NoDelimiter(s: string, delims: string)
  {
    forall i :: 0 <= i < |s| ==> s[i] !in delims
  }

  lemma NoDelimiterAppend(a: string, b: string, delims: string)
    requires NoDelimiter(a, delims) && NoDelimiter(b, delims)
    ensures NoDelimiter(a + b, delims)
  {
    forall i | 0 <= i < |a + b| ensures (a + b)[i] !in delims {
      if i >= |a| { assert (a + b)[i] == b[i - |a|]; }
    }
  }

  /** `strpbrk` from index `from`: the first delimiter at or after it, if any. */
  function FindDelimiter(s: string, from: nat, delims: string): (p: Option<nat>)
    requires from <= |s|
    ensures p.Some? ==> from <= p.value < |s| && s[p.value] in delims
    ensures p.Some? ==> NoDelimiter(s[from..p.value], delims)
    ensures p.None? ==> NoDelimiter(s[from..], delims)
    decreases |s| - from
  {
    if from == |s| then None
    else if s[from] in delims then Some(from)
    else FindDelimiter(s, from + 1, delims)
  }

  /** What one call returns (`token`) and where it leaves the cursor (`next`). */
  datatype Step = Step(token: Option<string>, next: Option<nat>)

  function StrTokenize(s: string, cursor: Option<nat>, delims: string): (r: Step)
    requires cursor.Some? ==> cursor.value <= |s|
    ensures cursor.None? ==> r == Step(None, None)
    ensures cursor.Some? ==> r.token.Some? && NoDelimiter(r.token.value, delims)
    ensures cursor.Some? && r.next.Some? ==>
              cursor.value < r.next.value <= |s| && s[r.next.value - 1] in delims &&
              s[cursor.value..] == r.token.value + [s[r.next.value - 1]] + s[r.next.value..]
    ensures cursor.Some? && r.next.None? ==> r.token == Some(s[cursor.value..])
  {
    match cursor
    case None => Step(None, None)
    case Some(start) =>
      match FindDelimiter(s, start, delims)
      case None => Step(Some(s[start..]), None)
      case Some(p) =>
        assert s[start..] == s[start..p] + [s[p]] + s[p + 1..];
        Step(Some(s[start..p]), Some(p + 1))
  }

  /** How much of `s` a cursor still has to hand out; it drops with every call. */
  function Remaining(s: string, cursor: Option<nat>): nat
  {
    match cursor
    case None => 0
    case Some(c) => if c <= |s| then |s| - c + 1 else 0
  }

  /** Every token that repeated calls return, starting from `cursor`, until NULL. */
  function TokensFrom(s: string, cursor: Option<nat>, delims: string): seq<string>
    requires cursor.Some? ==> cursor.value <= |s|
    decreases Remaining(s, cursor)
  {
    match cursor
    case None => []
    case Some(c) =>
      var step := StrTokenize(s, cursor, delims);
      [step.token.value] + TokensFrom(s, step.next, delims)
  }

  /**
   * The tokens of a whole string: never none, since the empty string is one
   * empty token.
   */
  function Tokens(s: string, delims: string): (ts: seq<string>)
    ensures |ts| >= 1
  {
    TokensFrom(s, Some(0), delims)
  }

  /** The delimiter characters of `s`, in order. */
  function Separators(s: string, delims: string): string
  {
    if s == [] then [] else (if s[0] in delims then [s[0]] else []) + Separators(s[1..], delims)
  }

  /** Tokens glued back together with the separators between them. */
  function Join(tokens: seq<string>, seps: string): string
    requires |tokens| == |seps| + 1
    decreases |seps|
  {
    if seps == [] then tokens[0] else tokens[0] + [seps[0]] + Join(tokens[1..], seps[1..])
  }

  lemma {:induction false} SeparatorsAppend(a: string, b: string, delims: string)
    ensures Separators(a + b, delims) == Separators(a, delims) + Separators(b, delims)
  {
    if a == [] {
      assert a + b == b;
    } else {
      var head := if a[0] in delims then [a[0]] else [];
      assert (a + b)[0] == a[0] && (a + b)[1..] == a[1..] + b;
      assert Separators(a + b, delims) == head + Separators(a[1..] + b, delims);
      SeparatorsAppend(a[1..], b, delims);
    }
  }

  lemma {:induction false} SeparatorsOfPlainText(a: string, delims: string)
    requires NoDelimiter(a, delims)
    ensures Separators(a, delims) == []
  {
    if a != [] {
      SeparatorsOfPlainText(a[1..], delims);
    }
  }

  lemma {:induction false} TokensFromRoundTrip(s: string, c: nat, delims: string)
    requires c <= |s|
    ensures |TokensFrom(s, Some(c), delims)| == |Separators(s[c..], delims)| + 1
    ensures Join(TokensFrom(s, Some(c), delims), Separators(s[c..], delims)) == s[c..]
    decreases |s| - c
  {
    var step := StrTokenize(s, Some(c), delims);
    var tok := step.token.value;
    match step.next
    case None =>
      SeparatorsOfPlainText(s[c..], delims);
    case Some(n) =>
      var d := s[n - 1];
      var rest := TokensFrom(s, Some(n), delims);
      TokensFromRoundTrip(s, n, delims);
      assert s[c..] == tok + ([d] + s[n..]);
      SeparatorsAppend(tok, [d] + s[n..], delims);
      SeparatorsAppend([d], s[n..], delims);
      SeparatorsOfPlainText(tok, delims);
      assert Separators([d], delims) == [d];
      var seps := Separators(s[c..], delims);
      assert seps == [d] + Separators(s[n..], delims);
      var ts := TokensFrom(s, Some(c), delims);
      assert ts == [tok] + rest;
      assert ts[1..] == rest && seps[1..] == Separators(s[n..], delims);
  }

  /**
   * Round trip: the tokens, re-joined with the separators they were cut at,
   * give back the input, and there is one more token than separators.
   */
  lemma TokensRoundTrip(s: string, delims: string)
    ensures |Tokens(s, delims)| == |Separators(s, delims)| + 1
    ensures Join(Tokens(s, delims), Separators(s, delims)) == s
  {
    TokensFromRoundTrip(s, 0, delims);
    assert s[0..] == s;
  }

  lemma {:induction false} TokensFromHaveNoDelimiters(s: string, c: nat, delims: string)
    requires c <= |s|
    ensures forall t :: t in TokensFrom(s, Some(c), delims) ==> NoDelimiter(t, delims)
    decreases |s| - c
  {
    var step := StrTokenize(s, Some(c), delims);
    if step.next.Some? {
      TokensFromHaveNoDelimiters(s, step.next.value, delims);
    }
  }

  /** No token contains a delimiter. */
  lemma TokensHaveNoDelimiters(s: string, delims: string)
    ensures forall t :: t in Tokens(s, delims) ==> NoDelimiter(t, delims)
  {
    TokensFromHaveNoDelimiters(s, 0, delims);
  }

  /** Text without a delimiter comes back as exactly one token. */
  lemma PlainTextIsOneToken(s: string, delims: string)
    requires NoDelimiter(s, delims)
    ensures Tokens(s, delims) == [s]
  {
    assert s[0..] == s;
    assert FindDelimiter(s, 0, delims) == None;
    assert StrTokenize(s, Some(0), delims) == Step(Some(s), None);
    assert TokensFrom(s, None, delims) == [];
  }

  /** A token cut at a delimiter: the text before the first delimiter is the next token. */
  lemma CutAtFirstDelimiter(s: string, c: nat, x: string, delims: string)
    requires c + |x| < |s| && s[c..c + |x|] == x
    requires NoDelimiter(x, delims) && s[c + |x|] in delims
    ensures TokensFrom(s, Some(c), delims) == [x] + TokensFrom(s, Some(c + |x| + 1), delims)
  {
    var p := FindDelimiter(s, c, delims);
    assert s[c..][|x|] == s[c + |x|];
    assert forall k :: c <= k < c + |x| ==> s[k] == x[k - c];
    assert p == Some(c + |x|);
    assert s[c..c + |x|] == x;
    var step := StrTokenize(s, Some(c), delims);
    assert step == Step(Some(x), Some(c + |x| + 1));
  }

  lemma {:induction false} FindDelimiterShift(s: string, c: nat, j: nat, delims: string)
    requires c <= j <= |s|
    ensures FindDelimiter(s, j, delims) ==
            match FindDelimiter(s[c..], j - c, delims)
            case None => None
            case Some(p) => Some(p + c)
    decreases |s| - j
  {
    if j < |s| {
      assert s[c..][j - c] == s[j];
      FindDelimiterShift(s, c, j + 1, delims);
    }
  }

  /** Tokenizing from an index gives what tokenizing the suffix from the matching index gives. */
  lemma StrTokenizeShift(s: string, c: nat, j: nat, delims: string)
    requires c <= j <= |s|
    ensures var a := StrTokenize(s, Some(j), delims);
            var b := StrTokenize(s[c..], Some(j - c), delims);
            a.token == b.token && (a.next.None? <==> b.next.None?) &&
            (a.next.Some? ==> c <= a.next.value <= |s| && b.next == Some(a.next.value - c))
  {
    var t := s[c..];
    FindDelimiterShift(s, c, j, delims);
    match FindDelimiter(s, j, delims)
    case None =>
      assert t[j - c..] == s[j..];
    case Some(p) =>
      assert t[j - c..p - c] == s[j..p];
  }

  /** Tokenizing from an index gives what tokenizing the suffix from the matching index gives. */
  lemma {:induction false} TokensFromShift(s: string, c: nat, j: nat, delims: string)
    requires c <= j <= |s|
    ensures TokensFrom(s, Some(j), delims) == TokensFrom(s[c..], Some(j - c), delims)
    decreases |s| - j
  {
    var a := StrTokenize(s, Some(j), delims);
    var b := StrTokenize(s[c..], Some(j - c), delims);
    StrTokenizeShift(s, c, j, delims);
    assert TokensFrom(s, Some(j), delims) == [a.token.value] + TokensFrom(s, a.next, delims);
    assert TokensFrom(s[c..], Some(j - c), delims) == [b.token.value] + TokensFrom(s[c..], b.next, delims);
    if a.next.Some? {
      TokensFromShift(s, c, a.next.value, delims);
    }
  }

  /** The text before a delimiter is the first token; the rest is tokenized on its own. */
  lemma TokensOfCut(x: string, d: char, rest: string, delims: string)
    requires NoDelimiter(x, delims) && d in delims
    ensures Tokens(x + [d] + rest, delims) == [x] + Tokens(rest, delims)
  {
    var s := x + [d] + rest;
    assert s[0..|x|] == x && s[|x|] == d;
    CutAtFirstDelimiter(s, 0, x, delims);
    TokensFromShift(s, |x| + 1, |x| + 1, delims);
    assert s[|x| + 1..] == rest;
  }

  /** After a line that ends with a delimiter, the last token handed out is empty. */
  lemma {:induction false} TrailingDelimiterGivesEmptyToken(s: string, c: nat, delims: string)
    requires c <= |s| && |s| > 0 && s[|s| - 1] in delims
    ensures var ts := TokensFrom(s, Some(c), delims); |ts| > 0 && ts[|ts| - 1] == []
    decreases |s| - c
  {
    var step := StrTokenize(s, Some(c), delims);
    if c < |s| {
      assert s[c..][|s| - 1 - c] == s[|s| - 1];
    }
    match step.next
    case None =>
      assert s[c..] == [];
    case Some(n) =>
      TrailingDelimiterGivesEmptyToken(s, n, delims);
  }

}
