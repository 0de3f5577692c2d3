/**
  Python 2 `str.split()` with no separator: the response line is cut at runs of
  whitespace, leading and trailing whitespace is dropped, and no empty token is
  ever produced.  A Python 2 `str` is a byte string, so whitespace is exactly the
  six bytes that `isspace` accepts.
 */
module PyText {

  predicate IsSpace(c: char) {
    c == ' ' || c == '\t' || c == '\n' || c == '\r' || c == '\U{000B}' || c == '\U{000C}'
  }

  predicate AllSpace(s: string) {
    forall i :: 0 <= i < |s| ==> IsSpace(s[i])
  }

  /** A token as `split()` produces it: non-empty and free of whitespace. */
  predicate IsToken(w: string) {
    |w| > 0 && forall i :: 0 <= i < |w| ==> !IsSpace(w[i])
  }

  /** The longest whitespace-free prefix. */
  function Word(s: string): (w: string)
    ensures |w| <= |s|
    ensures s != [] && !IsSpace(s[0]) ==> |w| > 0
  {
    if s != [] && !IsSpace(s[0]) then [s[0]] + Word(s[1..]) else []
  }

  /** `s.split()` */
  function Split(s: string): (toks: seq<string>)
    decreases |s|
  {
    if s == [] then []
    else if IsSpace(s[0]) then Split(s[1..])
    else
      var w := Word(s);
      [w] + Split(s[|w|..])
  }

  /** `Word` is the maximal whitespace-free prefix. */
  lemma {:induction false} WordIsMaximal(s: string)
    ensures Word(s) == s[..|Word(s)|]
    ensures forall i :: 0 <= i < |Word(s)| ==> !IsSpace(Word(s)[i])
    ensures |Word(s)| == |s| || IsSpace(s[|Word(s)|])
    decreases |s|
  {
    if s != [] && !IsSpace(s[0]) {
      WordIsMaximal(s[1..]);
      var w := Word(s[1..]);
      assert Word(s) == [s[0]] + w;
      assert forall i :: 1 <= i < |Word(s)| ==> Word(s)[i] == w[i - 1];
    }
  }

  /** Every piece `split()` returns is a token. */
  lemma {:induction false} SplitTokens(s: string)
    ensures forall i :: 0 <= i < |Split(s)| ==> IsToken(Split(s)[i])
    decreases |s|
  {
    if s != [] && IsSpace(s[0]) {
      SplitTokens(s[1..]);
    } else if s != [] {
      var w := Word(s);
      WordIsMaximal(s);
      SplitTokens(s[|w|..]);
      var toks := Split(s[|w|..]);
      assert Split(s) == [w] + toks;
      assert forall i :: 1 <= i < |Split(s)| ==> Split(s)[i] == toks[i - 1];
    }
  }

  /** Tokens joined by single spaces: the canonical text `split()` undoes. */
  function JoinSpace(toks: seq<string>): string
  {
    if |toks| == 0 then []
    else if |toks| == 1 then toks[0]
    else toks[0] + (" " + JoinSpace(toks[1..]))
  }

  /** The non-whitespace characters of `s`, in order. */
  function Visible(s: string): string
  {
    if s == [] then [] else (if IsSpace(s[0]) then [] else [s[0]]) + Visible(s[1..])
  }

  function Concat(toks: seq<string>): string
  {
    if toks == [] then [] else toks[0] + Concat(toks[1..])
  }

  lemma {:induction false} WordOfToken(w: string, tail: string)
    requires forall i :: 0 <= i < |w| ==> !IsSpace(w[i])
    requires tail == [] || IsSpace(tail[0])
    ensures Word(w + tail) == w
    decreases |w|
  {
    if w == [] {
      assert w + tail == tail;
    } else {
      assert (w + tail)[1..] == w[1..] + tail;
      WordOfToken(w[1..], tail);
      assert [w[0]] + w[1..] == w;
    }
  }

  /** Leading whitespace never changes the tokens. */
  lemma {:induction false} SplitOverSpace(p: string, s: string)
    requires AllSpace(p)
    ensures Split(p + s) == Split(s)
    decreases |p|
  {
    if p != [] {
      assert (p + s)[0] == p[0];
      assert (p + s)[1..] == p[1..] + s;
      SplitOverSpace(p[1..], s);
    } else {
      assert p + s == s;
    }
  }

  /** Whitespace-only text (including the empty line) has no tokens. */
  lemma {:induction false} SplitBlank(s: string)
    requires AllSpace(s)
    ensures Split(s) == []
  {
    SplitOverSpace(s, []);
    assert s + [] == s;
  }

  /** A token that ends at whitespace or at the end of the text is the next token. */
  lemma {:induction false} SplitToken(w: string, tail: string)
    requires IsToken(w)
    requires tail == [] || IsSpace(tail[0])
    ensures Split(w + tail) == [w] + Split(tail)
  {
    WordOfToken(w, tail);
    assert (w + tail)[0] == w[0];
    assert (w + tail)[|w|..] == tail;
  }

  /** A token followed by one space: the token, then whatever the rest splits into. */
  lemma {:induction false} SplitTokenSpace(w: string, rest: string)
    requires IsToken(w)
    ensures Split(w + (" " + rest)) == [w] + Split(rest)
  {
    var tail := " " + rest;
    assert tail[0] == ' ';
    SplitToken(w, tail);
    assert AllSpace(" ");
    SplitOverSpace(" ", rest);
  }

  /** A single token splits to itself. */
  lemma {:induction false} SplitSingle(w: string)
    requires IsToken(w)
    ensures Split(w) == [w]
  {
    SplitToken(w, []);
    assert w + [] == w;
    assert Split([]) == [];
  }

  lemma {:induction false} SplitJoinStep(toks: seq<string>)
    requires |toks| > 1 && IsToken(toks[0])
    requires Split(JoinSpace(toks[1..])) == toks[1..]
    ensures Split(JoinSpace(toks)) == toks
  {
    SplitTokenSpace(toks[0], JoinSpace(toks[1..]));
    assert [toks[0]] + toks[1..] == toks;
  }

  /** Round trip: splitting the single-space join of tokens gives the tokens back. */
  lemma {:induction false} SplitJoinSpace(toks: seq<string>)
    requires forall i :: 0 <= i < |toks| ==> IsToken(toks[i])
    ensures Split(JoinSpace(toks)) == toks
    decreases |toks|
  {
    if |toks| == 0 {
      assert Split([]) == [];
    } else if |toks| == 1 {
      SplitSingle(toks[0]);
    } else {
      assert forall i :: 0 <= i < |toks[1..]| ==> toks[1..][i] == toks[i + 1];
      SplitJoinSpace(toks[1..]);
      SplitJoinStep(toks);
    }
  }

  lemma {:induction false} VisibleAppend(a: string, b: string)
    ensures Visible(a + b) == Visible(a) + Visible(b)
    decreases |a|
  {
    if a != [] {
      assert (a + b)[1..] == a[1..] + b;
      VisibleAppend(a[1..], b);
    } else {
      assert a + b == b;
    }
  }

  lemma {:induction false} VisibleOfSpace(s: string)
    requires AllSpace(s)
    ensures Visible(s) == []
    decreases |s|
  {
    if s != [] {
      VisibleOfSpace(s[1..]);
    }
  }

  lemma {:induction false} VisibleOfWord(w: string)
    requires forall i :: 0 <= i < |w| ==> !IsSpace(w[i])
    ensures Visible(w) == w
    decreases |w|
  {
    if w != [] {
      VisibleOfWord(w[1..]);
      assert [w[0]] + w[1..] == w;
    }
  }

  /** `split()` loses and invents no visible character: the tokens, glued
      together, are exactly the non-whitespace text of the line. */
  lemma {:induction false} SplitKeepsVisible(s: string)
    ensures Concat(Split(s)) == Visible(s)
    decreases |s|
  {
    if s != [] && IsSpace(s[0]) {
      SplitKeepsVisible(s[1..]);
    } else if s != [] {
      var w := Word(s);
      var rest := s[|w|..];
      WordIsMaximal(s);
      assert s == w + rest;
      VisibleAppend(w, rest);
      VisibleOfWord(w);
      SplitKeepsVisible(rest);
      assert Split(s) == [w] + Split(rest);
      assert ([w] + Split(rest))[1..] == Split(rest);
    }
  }
}
