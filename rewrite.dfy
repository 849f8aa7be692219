/**
  The rewriting pass (`_write_file`): every non-blank line of a document is
  written out again with its tokens normalised as in the counting pass, each
  token found in the singleton set replaced by "#unk#", and the tokens joined
  by single spaces and ended with a newline. Blank lines are dropped.

  A document is its sequence of lines; the output document is the sequence
  of strings written to the output file, one per call to `write`.
 */
module Rewrite {
  import opened Text
  import opened Counting

  /** The token that stands for every sampled singleton. */
  const Unknown: string := "#unk#"

  /** `if tok in singletons: tok = "#unk#"`. */
  function Mask(token: string, singletons: set<string>): (r: string)
    ensures token in singletons ==> r == Unknown
    ensures token !in singletons ==> r == token
  {
    if token in singletons then Unknown else token
  }

  /** Each of `tokens` masked. */
  function MaskAll(tokens: seq<string>, singletons: set<string>): (r: seq<string>)
    ensures |r| == |tokens|
    ensures forall i :: 0 <= i < |r| ==> r[i] == Mask(tokens[i], singletons)
  {
    seq(|tokens|, i requires 0 <= i < |tokens| => Mask(tokens[i], singletons))
  }

  /** The string written for one non-blank line: `"{}\n".format(" ".join(sent_tokens))`. */
  function OutputLine(line: string, singletons: set<string>, lowercase: bool, replaceDigits: bool): (r: string)
    ensures r != [] && r[|r| - 1] == Newline
  {
    Join(MaskAll(LineTokens(line, lowercase, replaceDigits), singletons)) + [Newline]
  }

  /** What one input line produces: nothing for a blank line, its output line otherwise. */
  function Written(line: string, singletons: set<string>, lowercase: bool, replaceDigits: bool): seq<string> {
    if IsBlank(line) then [] else [OutputLine(line, singletons, lowercase, replaceDigits)]
  }

  /** Everything written for a document, in order. */
  function Rewritten(lines: seq<string>, singletons: set<string>, lowercase: bool, replaceDigits: bool): seq<string> {
    if lines == [] then []
    else Written(lines[0], singletons, lowercase, replaceDigits) + Rewritten(lines[1..], singletons, lowercase, replaceDigits)
  }

  /**
    The token loop of `_write_file` for one line: normalise each piece, mask
    it if it is a singleton, append it to `sent_tokens`.
   */
  method SentenceTokens(line: string, singletons: set<string>, lowercase: bool, replaceDigits: bool)
    returns (sentTokens: seq<string>)
    ensures sentTokens == MaskAll(LineTokens(line, lowercase, replaceDigits), singletons)
  {
    var tokens := Split(StripNewlines(line));
    ghost var expected := MaskAll(LineTokens(line, lowercase, replaceDigits), singletons);
    sentTokens := [];
    for j := 0 to |tokens|
      invariant sentTokens == expected[..j]
    {
      var tok := NormaliseToken(tokens[j], lowercase, replaceDigits);
      assert expected[j] == Mask(tok, singletons);
      if tok in singletons {
        tok := Unknown;
      }
      assert expected[..j + 1] == expected[..j] + [expected[j]];
      sentTokens := sentTokens + [tok];
    }
    assert expected[..|tokens|] == expected;
  }

  /**
    `_write_file` on one document: skips the blank lines and writes one
    rewritten line for each of the others, in order.
   */
  method RewriteDocument(lines: seq<string>, singletons: set<string>, lowercase: bool, replaceDigits: bool)
    returns (output: seq<string>)
    ensures output == Rewritten(lines, singletons, lowercase, replaceDigits)
  {
    output := [];
    for n := 0 to |lines|
      invariant output == Rewritten(lines[..n], singletons, lowercase, replaceDigits)
    {
      var line := lines[n];
      RewrittenSnoc(lines, n, singletons, lowercase, replaceDigits);
      if IsBlank(line) {
        continue;
      }
      var sentTokens := SentenceTokens(line, singletons, lowercase, replaceDigits);
      output := output + [Join(sentTokens) + [Newline]];
    }
    assert lines[..|lines|] == lines;
  }

  /** Everything written for the lines up to `n`, and then for line `n`. */
  lemma RewrittenSnoc(lines: seq<string>, n: nat, singletons: set<string>, lowercase: bool, replaceDigits: bool)
    requires n < |lines|
    ensures Rewritten(lines[..n + 1], singletons, lowercase, replaceDigits)
         == Rewritten(lines[..n], singletons, lowercase, replaceDigits) + Written(lines[n], singletons, lowercase, replaceDigits)
  {
    assert lines[..n + 1] == lines[..n] + [lines[n]];
    RewrittenAppend(lines[..n], [lines[n]], singletons, lowercase, replaceDigits);
    assert Rewritten([lines[n]], singletons, lowercase, replaceDigits)
        == Written(lines[n], singletons, lowercase, replaceDigits) + Rewritten([], singletons, lowercase, replaceDigits);
  }

  /** Rewriting two consecutive parts of a document writes the output of the first, then of the second. */
  lemma {:induction false} RewrittenAppend(a: seq<string>, b: seq<string>, singletons: set<string>, lowercase: bool, replaceDigits: bool)
    ensures Rewritten(a + b, singletons, lowercase, replaceDigits)
         == Rewritten(a, singletons, lowercase, replaceDigits) + Rewritten(b, singletons, lowercase, replaceDigits)
    decreases |a|
  {
    if a == [] {
      assert a + b == b;
    } else {
      assert (a + b)[0] == a[0] && (a + b)[1..] == a[1..] + b;
      RewrittenAppend(a[1..], b, singletons, lowercase, replaceDigits);
    }
  }

  /**
    `_write_file` over its list of documents: each is rewritten on its own,
    and the documents are independent of one another.
   */
  method WriteFile(documents: seq<seq<string>>, singletons: set<string>, lowercase: bool, replaceDigits: bool)
    returns (outputs: seq<seq<string>>)
    ensures |outputs| == |documents|
    ensures forall d :: 0 <= d < |documents| ==> outputs[d] == Rewritten(documents[d], singletons, lowercase, replaceDigits)
  {
    outputs := [];
    for d := 0 to |documents|
      invariant |outputs| == d
      invariant forall e :: 0 <= e < d ==> outputs[e] == Rewritten(documents[e], singletons, lowercase, replaceDigits)
    {
      var output := RewriteDocument(documents[d], singletons, lowercase, replaceDigits);
      outputs := outputs + [output];
    }
  }

  /** One output line per non-blank input line, in the same order. */
  lemma {:induction false} RewrittenLines(lines: seq<string>, singletons: set<string>, lowercase: bool, replaceDigits: bool)
    ensures |Rewritten(lines, singletons, lowercase, replaceDigits)| == |NonBlank(lines)|
    ensures forall i :: 0 <= i < |NonBlank(lines)| ==>
      Rewritten(lines, singletons, lowercase, replaceDigits)[i] == OutputLine(NonBlank(lines)[i], singletons, lowercase, replaceDigits)
  {
    if lines != [] {
      RewrittenLines(lines[1..], singletons, lowercase, replaceDigits);
      var out, rest := Rewritten(lines, singletons, lowercase, replaceDigits), Rewritten(lines[1..], singletons, lowercase, replaceDigits);
      var nb, nbRest := NonBlank(lines), NonBlank(lines[1..]);
      if IsBlank(lines[0]) {
        assert nb == [] + nbRest && out == [] + rest;
      } else {
        var first := OutputLine(lines[0], singletons, lowercase, replaceDigits);
        assert nb == [lines[0]] + nbRest && out == [first] + rest;
        forall i | 0 <= i < |nb|
          ensures out[i] == OutputLine(nb[i], singletons, lowercase, replaceDigits)
        {
          if i > 0 {
            assert out[i] == rest[i - 1] && nb[i] == nbRest[i - 1];
          }
        }
      }
    }
  }

  /** No token written contains a space: normalised tokens have none, and neither has "#unk#". */
  lemma MaskedTokensHaveNoSpace(line: string, singletons: set<string>, lowercase: bool, replaceDigits: bool)
    ensures var masked := MaskAll(LineTokens(line, lowercase, replaceDigits), singletons);
      && |masked| == Spaces(StripNewlines(line)) + 1
      && forall i :: 0 <= i < |masked| ==> Space !in masked[i]
  {
    LineTokensShape(line, lowercase, replaceDigits);
    assert Space !in Unknown;
  }

  /** The output line without its final newline. */
  function Body(out: string): string
    requires out != []
  {
    out[..|out| - 1]
  }

  /**
    Each output line ends with a newline, and cutting the rest at spaces
    gives one token per space-separated piece of the input line: piece `i`
    becomes "#unk#" when its normalised form is a singleton, and that
    normalised form otherwise.
   */
  lemma OutputLineTokens(line: string, singletons: set<string>, lowercase: bool, replaceDigits: bool)
    ensures var out := OutputLine(line, singletons, lowercase, replaceDigits);
      && out != [] && out[|out| - 1] == Newline
      && Split(Body(out)) == MaskAll(LineTokens(line, lowercase, replaceDigits), singletons)
    ensures var out, raw := OutputLine(line, singletons, lowercase, replaceDigits), Split(StripNewlines(line));
      && |Split(Body(out))| == |raw|
      && forall i :: 0 <= i < |raw| ==>
           var norm := Normalise(raw[i], lowercase, replaceDigits);
           Split(Body(out))[i] == if norm in singletons then Unknown else norm
  {
    var masked := MaskAll(LineTokens(line, lowercase, replaceDigits), singletons);
    var out := OutputLine(line, singletons, lowercase, replaceDigits);
    MaskedTokensHaveNoSpace(line, singletons, lowercase, replaceDigits);
    SplitJoin(masked);
    assert Body(out) == Join(masked);
  }

  /** With no singleton, the output line is the plain normalised text. */
  lemma NoSingletonsPlainText(line: string, lowercase: bool, replaceDigits: bool)
    ensures OutputLine(line, {}, lowercase, replaceDigits) == Join(LineTokens(line, lowercase, replaceDigits)) + [Newline]
  {
    var tokens := LineTokens(line, lowercase, replaceDigits);
    assert MaskAll(tokens, {}) == tokens;
  }

  /** The tokens of a sequence of output lines, each cut at spaces once its newline is removed. */
  function OutputTokens(output: seq<string>): seq<string>
    requires forall i :: 0 <= i < |output| ==> output[i] != []
  {
    if output == [] then [] else Split(Body(output[0])) + OutputTokens(output[1..])
  }

  /**
    The rewriting pass writes the very tokens the counting pass counted (with
    the same flags), in the same order, with the singletons masked.
   */
  lemma {:induction false} RewrittenTokens(lines: seq<string>, singletons: set<string>, lowercase: bool, replaceDigits: bool)
    ensures forall i :: 0 <= i < |Rewritten(lines, singletons, lowercase, replaceDigits)| ==>
      Rewritten(lines, singletons, lowercase, replaceDigits)[i] != []
    ensures OutputTokens(Rewritten(lines, singletons, lowercase, replaceDigits))
         == MaskAll(DocTokens(lines, lowercase, replaceDigits), singletons)
  {
    RewrittenLines(lines, singletons, lowercase, replaceDigits);
    var out := Rewritten(lines, singletons, lowercase, replaceDigits);
    forall i | 0 <= i < |out| ensures out[i] != [] {
      OutputLineTokens(NonBlank(lines)[i], singletons, lowercase, replaceDigits);
    }
    if lines != [] {
      RewrittenTokens(lines[1..], singletons, lowercase, replaceDigits);
      var rest := Rewritten(lines[1..], singletons, lowercase, replaceDigits);
      var restTokens := DocTokens(lines[1..], lowercase, replaceDigits);
      MaskAllAppend(Contribution(lines[0], lowercase, replaceDigits), restTokens, singletons);
      if IsBlank(lines[0]) {
        assert out == [] + rest == rest;
        assert DocTokens(lines, lowercase, replaceDigits) == [] + restTokens == restTokens;
      } else {
        OutputLineTokens(lines[0], singletons, lowercase, replaceDigits);
        assert out == [OutputLine(lines[0], singletons, lowercase, replaceDigits)] + rest;
        assert out[0] == OutputLine(lines[0], singletons, lowercase, replaceDigits) && out[1..] == rest;
      }
    }
  }

  /** Masking two runs of tokens is masking each. */
  lemma MaskAllAppend(a: seq<string>, b: seq<string>, singletons: set<string>)
    ensures MaskAll(a + b, singletons) == MaskAll(a, singletons) + MaskAll(b, singletons)
  {
  }
}
