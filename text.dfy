/**
  Text handling used by both passes over a document: the test for a blank
  line, `rstrip("\n")`, `split(" ")`, `" ".join(...)` and the token
  normalisation (lowercasing, then folding every digit to '0').

  Characters are restricted to ASCII semantics: `str.lower()` maps 'A'..'Z'
  to 'a'..'z' and leaves every other character alone, and `\d` matches
  '0'..'9' only.
 */
module Text {

  const Space: char := ' '
  const Newline: char := '\n'

  predicate IsDigit(c: char) {
    '0' <= c <= '9'
  }

  predicate IsUpper(c: char) {
    'A' <= c <= 'Z'
  }

  /** `re.search("\d", s)` finds something. */
  predicate HasDigit(s: string) {
    exists i :: 0 <= i < |s| && IsDigit(s[i])
  }

  /** `str.lower()` on one ASCII character. */
  function LowerChar(c: char): (r: char)
    ensures !IsUpper(r)
    ensures IsUpper(c) ==> 'a' <= r <= 'z' && (r as int) - ('a' as int) == (c as int) - ('A' as int)
    ensures !IsUpper(c) ==> r == c
    ensures IsDigit(r) <==> IsDigit(c)
    ensures r == Space <==> c == Space
    ensures r == Newline <==> c == Newline
  {
    if IsUpper(c) then ((c as int) + 32) as char else c
  }

  /** `str.lower()` on a token. */
  function Lower(s: string): (r: string)
    ensures |r| == |s|
    ensures forall i :: 0 <= i < |s| ==> r[i] == LowerChar(s[i])
  {
    seq(|s|, i requires 0 <= i < |s| => LowerChar(s[i]))
  }

  /** `re.sub("\d", "0", s)`. */
  function FoldDigits(s: string): (r: string)
    ensures |r| == |s|
    ensures forall i :: 0 <= i < |s| ==> r[i] == if IsDigit(s[i]) then '0' else s[i]
  {
    seq(|s|, i requires 0 <= i < |s| => if IsDigit(s[i]) then '0' else s[i])
  }

  /**
    The normalisation applied to every token, by the counting pass and by the
    rewriting pass alike: optionally lowercase, then optionally replace every
    digit with '0'.
   */
  function Normalise(token: string, lowercase: bool, replaceDigits: bool): (r: string)
    ensures |r| == |token|
  {
    var lowered := if lowercase then Lower(token) else token;
    if replaceDigits then FoldDigits(lowered) else lowered
  }

  /**
    What normalisation does to each character: digits stay digits (all '0'
    when folding, unchanged otherwise), every other character is at most
    lowercased, and the length is kept.
   */
  lemma NormaliseChars(token: string, lowercase: bool, replaceDigits: bool)
    ensures var r := Normalise(token, lowercase, replaceDigits);
      && |r| == |token|
      && (forall i :: 0 <= i < |r| ==> (IsDigit(r[i]) <==> IsDigit(token[i])))
      && (replaceDigits ==> forall i :: 0 <= i < |r| && IsDigit(r[i]) ==> r[i] == '0')
      && (!replaceDigits ==> forall i :: 0 <= i < |r| && IsDigit(token[i]) ==> r[i] == token[i])
      && (forall i :: 0 <= i < |r| && !IsDigit(token[i]) ==>
            r[i] == if lowercase then LowerChar(token[i]) else token[i])
  {
  }

  /** Normalisation neither creates nor removes spaces. */
  lemma NormaliseKeepsSpaces(token: string, lowercase: bool, replaceDigits: bool)
    ensures Space in Normalise(token, lowercase, replaceDigits) <==> Space in token
  {
    var r := Normalise(token, lowercase, replaceDigits);
    if Space in token {
      var i :| 0 <= i < |token| && token[i] == Space;
      assert r[i] == Space;
    }
    if Space in r {
      var i :| 0 <= i < |r| && r[i] == Space;
      assert token[i] == Space;
    }
  }

  /**
    The statements that normalise one token, written out in both loops of the
    source: lowercase if asked, then fold digits if asked.
   */
  method NormaliseToken(token: string, lowercase: bool, replaceDigits: bool) returns (tokenStr: string)
    ensures tokenStr == Normalise(token, lowercase, replaceDigits)
  {
    tokenStr := token;
    if lowercase {
      tokenStr := Lower(tokenStr);
    }
    if replaceDigits {
      tokenStr := FoldDigits(tokenStr);
    }
  }

  /** Normalising a normalised token changes nothing. */
  lemma NormaliseIdempotent(token: string, lowercase: bool, replaceDigits: bool)
    ensures Normalise(Normalise(token, lowercase, replaceDigits), lowercase, replaceDigits)
         == Normalise(token, lowercase, replaceDigits)
  {
    var once := Normalise(token, lowercase, replaceDigits);
    var twice := Normalise(once, lowercase, replaceDigits);
    NormaliseChars(token, lowercase, replaceDigits);
    NormaliseChars(once, lowercase, replaceDigits);
    forall i | 0 <= i < |once|
      ensures twice[i] == once[i]
    {
      if !IsDigit(token[i]) && lowercase {
        assert once[i] == LowerChar(token[i]);
      }
    }
  }

  /** Normalisation neither creates nor removes digits, so the digit test of a token is that of its raw form. */
  lemma NormalisePreservesHasDigit(token: string, lowercase: bool, replaceDigits: bool)
    ensures HasDigit(Normalise(token, lowercase, replaceDigits)) <==> HasDigit(token)
  {
    var r := Normalise(token, lowercase, replaceDigits);
    NormaliseChars(token, lowercase, replaceDigits);
    if HasDigit(token) {
      var i :| 0 <= i < |token| && IsDigit(token[i]);
      assert IsDigit(r[i]);
    }
    if HasDigit(r) {
      var i :| 0 <= i < |r| && IsDigit(r[i]);
      assert IsDigit(token[i]);
    }
  }

  /** `re.match("^$", line)`: `$` also matches just before a final newline. */
  predicate IsBlank(line: string) {
    line == "" || line == "\n"
  }

  /** `line.rstrip("\n")`: removes every trailing newline. */
  function StripNewlines(s: string): (r: string)
    ensures |r| <= |s| && r == s[..|r|]
    ensures |r| > 0 ==> r[|r| - 1] != Newline
    ensures forall i :: |r| <= i < |s| ==> s[i] == Newline
    decreases |s|
  {
    if |s| > 0 && s[|s| - 1] == Newline then StripNewlines(s[..|s| - 1]) else s
  }

  /** Number of spaces in `s`. */
  function Spaces(s: string): nat {
    if s == [] then 0 else (if s[0] == Space then 1 else 0) + Spaces(s[1..])
  }

  /**
    `s.split(" ")`: cuts at every single space and keeps the empty pieces, so
    `"".split(" ") == [""]` and `" a".split(" ") == ["", "a"]`.
   */
  function Split(s: string): (r: seq<string>)
    ensures |r| == Spaces(s) + 1
    ensures forall i :: 0 <= i < |r| ==> Space !in r[i]
    decreases |s|
  {
    if s == [] then [[]]
    else
      var rest := Split(s[1..]);
      if s[0] == Space then [[]] + rest
      else [[s[0]] + rest[0]] + rest[1..]
  }

  /** `" ".join(tokens)`. */
  function Join(tokens: seq<string>): (r: string)
    ensures tokens == [] ==> r == []
  {
    if |tokens| == 0 then []
    else if |tokens| == 1 then tokens[0]
    else tokens[0] + [Space] + Join(tokens[1..])
  }

  /** Putting text in front of the first piece puts it in front of the join. */
  lemma {:induction false} JoinPrependFirst(c: string, tokens: seq<string>)
    requires |tokens| >= 1
    ensures Join([c + tokens[0]] + tokens[1..]) == c + Join(tokens)
  {
    var pieces := [c + tokens[0]] + tokens[1..];
    assert pieces[0] == c + tokens[0] && pieces[1..] == tokens[1..];
    if |tokens| > 1 {
      assert Join(pieces) == (c + tokens[0]) + [Space] + Join(tokens[1..]);
      assert Join(tokens) == tokens[0] + [Space] + Join(tokens[1..]);
    }
  }

  /** Joining the pieces of a split gives back the original text. */
  lemma {:induction false} JoinSplit(s: string)
    ensures Join(Split(s)) == s
    decreases |s|
  {
    if s != [] {
      var rest := Split(s[1..]);
      JoinSplit(s[1..]);
      if s[0] == Space {
        var pieces := [[]] + rest;
        assert pieces[1..] == rest;
        assert Join(pieces) == [Space] + s[1..];
      } else {
        JoinPrependFirst([s[0]], rest);
      }
      assert [s[0]] + s[1..] == s;
    }
  }

  /** A text without a space is a single piece. */
  lemma {:induction false} SplitNoSpace(a: string)
    requires Space !in a
    ensures Split(a) == [a]
    decreases |a|
  {
    if a != [] {
      SplitNoSpace(a[1..]);
      assert [a[0]] + a[1..] == a;
    }
  }

  /** A space after a space-free prefix closes the first piece. */
  lemma {:induction false} SplitAtSpace(a: string, rest: string)
    requires Space !in a
    ensures Split(a + [Space] + rest) == [a] + Split(rest)
    decreases |a|
  {
    var s := a + [Space] + rest;
    if a == [] {
      assert s[1..] == rest;
    } else {
      assert s[1..] == a[1..] + [Space] + rest;
      SplitAtSpace(a[1..], rest);
      assert [a[0]] + a[1..] == a;
    }
  }

  /** Splitting a join of space-free pieces gives back those pieces. */
  lemma {:induction false} SplitJoin(tokens: seq<string>)
    requires |tokens| >= 1
    requires forall i :: 0 <= i < |tokens| ==> Space !in tokens[i]
    ensures Split(Join(tokens)) == tokens
    decreases |tokens|
  {
    if |tokens| == 1 {
      SplitNoSpace(tokens[0]);
    } else {
      SplitJoin(tokens[1..]);
      SplitAtSpace(tokens[0], Join(tokens[1..]));
      assert [tokens[0]] + tokens[1..] == tokens;
    }
  }
}
