/**
  The counting pass (`_gather_token_count`): one document, given as its lines,
  becomes a table from normalised token to number of occurrences.
 */
module Counting {
  import opened Text
  import opened Tables

  /** Each of `raw` normalised. */
  function NormaliseAll(raw: seq<string>, lowercase: bool, replaceDigits: bool): (r: seq<string>)
    ensures |r| == |raw|
    ensures forall i :: 0 <= i < |r| ==> r[i] == Normalise(raw[i], lowercase, replaceDigits)
  {
    seq(|raw|, i requires 0 <= i < |raw| => Normalise(raw[i], lowercase, replaceDigits))
  }

  /** The normalised tokens of one line: strip the newlines, cut at spaces, normalise each piece. */
  function LineTokens(line: string, lowercase: bool, replaceDigits: bool): seq<string> {
    NormaliseAll(Split(StripNewlines(line)), lowercase, replaceDigits)
  }

  /**
    A line yields one token more than it has spaces; no token holds a space;
    with digit folding, the only digit in a token is '0'.
   */
  lemma LineTokensShape(line: string, lowercase: bool, replaceDigits: bool)
    ensures var r := LineTokens(line, lowercase, replaceDigits);
      && |r| == Spaces(StripNewlines(line)) + 1
      && (forall i :: 0 <= i < |r| ==> Space !in r[i])
      && (replaceDigits ==> forall i, j :: 0 <= i < |r| && 0 <= j < |r[i]| && IsDigit(r[i][j]) ==> r[i][j] == '0')
  {
    var raw := Split(StripNewlines(line));
    forall i | 0 <= i < |raw|
      ensures Space !in Normalise(raw[i], lowercase, replaceDigits)
      ensures replaceDigits ==> forall j :: 0 <= j < |raw[i]| && IsDigit(Normalise(raw[i], lowercase, replaceDigits)[j])
                                  ==> Normalise(raw[i], lowercase, replaceDigits)[j] == '0'
    {
      NormaliseKeepsSpaces(raw[i], lowercase, replaceDigits);
      NormaliseChars(raw[i], lowercase, replaceDigits);
    }
  }

  /** The lines that are not skipped as blank, in their order. */
  function NonBlank(lines: seq<string>): (r: seq<string>)
    ensures |r| <= |lines|
    ensures forall i :: 0 <= i < |r| ==> !IsBlank(r[i]) && r[i] in lines
  {
    if lines == [] then []
    else (if IsBlank(lines[0]) then [] else [lines[0]]) + NonBlank(lines[1..])
  }

  /** The tokens one line contributes: none for a blank line. */
  function Contribution(line: string, lowercase: bool, replaceDigits: bool): seq<string> {
    if IsBlank(line) then [] else LineTokens(line, lowercase, replaceDigits)
  }

  /** Every token the counting pass sees in a document, in reading order. */
  function DocTokens(lines: seq<string>, lowercase: bool, replaceDigits: bool): seq<string> {
    if lines == [] then []
    else Contribution(lines[0], lowercase, replaceDigits) + DocTokens(lines[1..], lowercase, replaceDigits)
  }

  /** The number of space-separated pieces over the non-blank lines. */
  function PieceCount(lines: seq<string>): nat {
    if lines == [] then 0
    else (if IsBlank(lines[0]) then 0 else Spaces(StripNewlines(lines[0])) + 1) + PieceCount(lines[1..])
  }

  /**
    `_gather_token_count`: reads the document line by line, skips the blank
    lines, and adds one to the count of every normalised token of the others.
   */
  method GatherTokenCount(lines: seq<string>, lowercase: bool, replaceDigits: bool)
    returns (documentTokens: Table)
    ensures documentTokens == Tally(DocTokens(lines, lowercase, replaceDigits))
    ensures documentTokens.Valid()
    ensures forall k :: documentTokens.Get(k) == multiset(DocTokens(lines, lowercase, replaceDigits))[k]
    ensures documentTokens.Total() == PieceCount(lines)
  {
    documentTokens := Empty;
    for n := 0 to |lines|
      invariant documentTokens == Tally(DocTokens(lines[..n], lowercase, replaceDigits))
    {
      var line := lines[n];
      DocTokensSnoc(lines, n, lowercase, replaceDigits);
      CountIntoAppend(Empty, DocTokens(lines[..n], lowercase, replaceDigits), Contribution(line, lowercase, replaceDigits));
      if IsBlank(line) {
        continue;
      }
      documentTokens := CountLine(documentTokens, line, lowercase, replaceDigits);
    }
    assert lines[..|lines|] == lines;
    TallyCounts(DocTokens(lines, lowercase, replaceDigits));
    DocTokensLength(lines, lowercase, replaceDigits);
  }

  /** The inner loop of `_gather_token_count`: counts the tokens of one non-blank line. */
  method CountLine(documentTokens: Table, line: string, lowercase: bool, replaceDigits: bool)
    returns (updated: Table)
    ensures updated == CountInto(documentTokens, LineTokens(line, lowercase, replaceDigits))
  {
    updated := documentTokens;
    var tokens := Split(StripNewlines(line));
    ghost var counted := LineTokens(line, lowercase, replaceDigits);
    for j := 0 to |tokens|
      invariant updated == CountInto(documentTokens, counted[..j])
    {
      var tokenStr := NormaliseToken(tokens[j], lowercase, replaceDigits);
      CountIntoSnoc(documentTokens, counted, j);
      updated := updated.Inc(tokenStr, 1);
    }
    assert counted[..|tokens|] == counted;
  }

  /** The tokens of the lines up to `n`, then those of line `n`. */
  lemma DocTokensSnoc(lines: seq<string>, n: nat, lowercase: bool, replaceDigits: bool)
    requires n < |lines|
    ensures DocTokens(lines[..n + 1], lowercase, replaceDigits)
         == DocTokens(lines[..n], lowercase, replaceDigits) + Contribution(lines[n], lowercase, replaceDigits)
  {
    assert lines[..n + 1] == lines[..n] + [lines[n]];
    DocTokensAppend(lines[..n], [lines[n]], lowercase, replaceDigits);
    assert DocTokens([lines[n]], lowercase, replaceDigits)
        == Contribution(lines[n], lowercase, replaceDigits) + DocTokens([], lowercase, replaceDigits);
  }

  /** A document yields one token per space-separated piece of each non-blank line. */
  lemma {:induction false} DocTokensLength(lines: seq<string>, lowercase: bool, replaceDigits: bool)
    ensures |DocTokens(lines, lowercase, replaceDigits)| == PieceCount(lines)
  {
    if lines != [] {
      LineTokensShape(lines[0], lowercase, replaceDigits);
      DocTokensLength(lines[1..], lowercase, replaceDigits);
    }
  }

  /** The tokens of two consecutive parts of a document are those of each part, in turn. */
  lemma {:induction false} DocTokensAppend(a: seq<string>, b: seq<string>, lowercase: bool, replaceDigits: bool)
    ensures DocTokens(a + b, lowercase, replaceDigits)
         == DocTokens(a, lowercase, replaceDigits) + DocTokens(b, lowercase, replaceDigits)
    decreases |a|
  {
    if a != [] {
      var head := Contribution(a[0], lowercase, replaceDigits);
      assert (a + b)[0] == a[0] && (a + b)[1..] == a[1..] + b;
      assert DocTokens(a + b, lowercase, replaceDigits) == head + DocTokens(a[1..] + b, lowercase, replaceDigits);
      DocTokensAppend(a[1..], b, lowercase, replaceDigits);
      assert DocTokens(a, lowercase, replaceDigits) == head + DocTokens(a[1..], lowercase, replaceDigits);
    } else {
      assert a + b == b;
    }
  }

  /** A blank line contributes nothing, wherever it stands. */
  lemma BlankLineContributesNothing(a: seq<string>, blank: string, b: seq<string>, lowercase: bool, replaceDigits: bool)
    requires IsBlank(blank)
    ensures DocTokens(a + [blank] + b, lowercase, replaceDigits) == DocTokens(a + b, lowercase, replaceDigits)
  {
    DocTokensAppend(a, [blank] + b, lowercase, replaceDigits);
    DocTokensAppend(a, b, lowercase, replaceDigits);
    assert a + [blank] + b == a + ([blank] + b);
    var bb := [blank] + b;
    assert bb[0] == blank && bb[1..] == b;
    assert DocTokens(bb, lowercase, replaceDigits) == [] + DocTokens(b, lowercase, replaceDigits);
    assert [] + DocTokens(b, lowercase, replaceDigits) == DocTokens(b, lowercase, replaceDigits);
  }

  /** Only the non-blank lines are counted: dropping the blank ones changes nothing. */
  lemma {:induction false} DocTokensOfNonBlank(lines: seq<string>, lowercase: bool, replaceDigits: bool)
    ensures DocTokens(NonBlank(lines), lowercase, replaceDigits) == DocTokens(lines, lowercase, replaceDigits)
  {
    if lines != [] {
      DocTokensOfNonBlank(lines[1..], lowercase, replaceDigits);
      var nb, rest := NonBlank(lines), DocTokens(lines[1..], lowercase, replaceDigits);
      if !IsBlank(lines[0]) {
        assert nb[0] == lines[0] && nb[1..] == NonBlank(lines[1..]);
      } else {
        assert nb == [] + NonBlank(lines[1..]) == NonBlank(lines[1..]);
        assert DocTokens(lines, lowercase, replaceDigits) == [] + rest == rest;
      }
    }
  }
}
