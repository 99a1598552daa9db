/** The two JavaScript string operations the gift extractor relies on:
    `String.prototype.split(',')` and `String.prototype.trim()`. */
module Text {

  /** The characters `trim()` removes: ECMAScript WhiteSpace (tab, vertical
      tab, form feed, space, no-break space, zero-width no-break space and the
      Unicode space separators) and LineTerminator (line feed, carriage
      return, line and paragraph separators). */
  predicate IsWhitespace(c: char) {
    c == '\t' || c == '\n' || c == '\U{000B}' || c == '\U{000C}' || c == '\r' ||
    c == ' ' || c == '\U{00A0}' || c == '\U{1680}' ||
    ('\U{2000}' <= c <= '\U{200A}') ||
    c == '\U{2028}' || c == '\U{2029}' || c == '\U{202F}' || c == '\U{205F}' ||
    c == '\U{3000}' || c == '\U{FEFF}'
  }

  predicate AllWhitespace(s: string) {
    forall i :: 0 <= i < |s| ==> IsWhitespace(s[i])
  }

  /** Neither end of `s` is whitespace: the shape of every `trim()` result. */
  predicate IsTrimmed(s: string) {
    s == [] || (!IsWhitespace(s[0]) && !IsWhitespace(s[|s| - 1]))
  }

  /** `s.trim()`: drop one whitespace character from the front while there
      is one, then from the back. */
  function Trim(s: string): (r: string)
    ensures IsTrimmed(r)
    ensures |r| <= |s|
    decreases |s|
  {
    if s == [] then s
    else if IsWhitespace(s[0]) then Trim(s[1..])
    else if IsWhitespace(s[|s| - 1]) then Trim(s[..|s| - 1])
    else s
  }

  /** `r` sits in `s` at offset `k` with only whitespace before and after it. */
  predicate InfixAfterWhitespace(s: string, r: string, k: nat) {
    k + |r| <= |s| && r == s[k..k + |r|] && AllWhitespace(s[..k]) && AllWhitespace(s[k + |r|..])
  }

  /** The trim is the infix of `s` left after removing whitespace at both
      ends: only whitespace is dropped, and nothing inside is touched. */
  lemma {:induction false} TrimIsInfix(s: string)
    ensures exists k :: InfixAfterWhitespace(s, Trim(s), k)
    decreases |s|
  {
    if s == [] || (!IsWhitespace(s[0]) && !IsWhitespace(s[|s| - 1])) {
      assert InfixAfterWhitespace(s, Trim(s), 0) by {
        assert s[0..|s|] == s;
      }
    } else if IsWhitespace(s[0]) {
      TrimIsInfix(s[1..]);
      var k :| InfixAfterWhitespace(s[1..], Trim(s[1..]), k);
      InfixAfterLeading(s, Trim(s), k);
    } else {
      TrimIsInfix(s[..|s| - 1]);
      var k :| InfixAfterWhitespace(s[..|s| - 1], Trim(s[..|s| - 1]), k);
      InfixBeforeTrailing(s, Trim(s), k);
    }
  }

  lemma InfixAfterLeading(s: string, r: string, k: nat)
    requires s != [] && IsWhitespace(s[0]) && InfixAfterWhitespace(s[1..], r, k)
    ensures InfixAfterWhitespace(s, r, k + 1)
  {
    var t := s[1..];
    assert r == s[k + 1..k + 1 + |r|];
    assert s[..k + 1] == [s[0]] + t[..k];
    assert s[k + 1 + |r|..] == t[k + |r|..];
  }

  lemma InfixBeforeTrailing(s: string, r: string, k: nat)
    requires s != [] && IsWhitespace(s[|s| - 1]) && InfixAfterWhitespace(s[..|s| - 1], r, k)
    ensures InfixAfterWhitespace(s, r, k)
  {
    var t := s[..|s| - 1];
    assert r == s[k..k + |r|];
    assert s[..k] == t[..k];
    assert s[k + |r|..] == t[k + |r|..] + [s[|s| - 1]];
  }

  /** A string that is already trimmed is left as it is. */
  lemma TrimTrimmed(s: string)
    requires IsTrimmed(s)
    ensures Trim(s) == s
  {
  }

  /** The pieces of `s.split(',')`: the maximal comma-free runs of `s`, in
      order, including empty ones; there is always at least one piece. */
  function SplitOnComma(s: string): (r: seq<string>)
    ensures |r| >= 1
    ensures forall k :: 0 <= k < |r| ==> ',' !in r[k]
    ensures JoinWithComma(r) == s
  {
    if s == [] then [[]]
    else
      var rest := SplitOnComma(s[1..]);
      if s[0] == ',' then [[]] + rest
      else [[s[0]] + rest[0]] + rest[1..]
  }

  /** `pieces.join(',')`. */
  function JoinWithComma(pieces: seq<string>): string
    requires |pieces| >= 1
  {
    if |pieces| == 1 then pieces[0] else pieces[0] + "," + JoinWithComma(pieces[1..])
  }

  /** Splitting a comma-joined list of comma-free pieces gives the pieces
      back: together with the contract of `SplitOnComma` this says the split
      is the only comma-free decomposition of its input. */
  lemma {:induction false} SplitJoin(pieces: seq<string>)
    requires |pieces| >= 1
    requires forall k :: 0 <= k < |pieces| ==> ',' !in pieces[k]
    ensures SplitOnComma(JoinWithComma(pieces)) == pieces
  {
    var p := pieces[0];
    if |pieces| == 1 {
      SplitNoComma(p);
    } else {
      SplitJoin(pieces[1..]);
      SplitPrefix(p, JoinWithComma(pieces[1..]));
    }
  }

  /** A comma-free string is a single piece. */
  lemma {:induction false} SplitNoComma(p: string)
    requires ',' !in p
    ensures SplitOnComma(p) == [p]
  {
    if p != [] {
      SplitNoComma(p[1..]);
    }
  }

  /** Splitting `p + "," + s` for comma-free `p` yields `p` and then the pieces of `s`. */
  lemma {:induction false} SplitPrefix(p: string, s: string)
    requires ',' !in p
    ensures SplitOnComma(p + "," + s) == [p] + SplitOnComma(s)
  {
    if p == [] {
      assert p + "," + s == [','] + s;
      assert ([','] + s)[1..] == s;
    } else {
      var q := p + "," + s;
      assert q[0] == p[0] && q[1..] == p[1..] + "," + s;
      var rest := SplitOnComma(q[1..]);
      assert rest == [p[1..]] + SplitOnComma(s) by {
        SplitPrefix(p[1..], s);
      }
      assert [p[0]] + p[1..] == p;
      assert SplitOnComma(q) == [[p[0]] + rest[0]] + rest[1..];
    }
  }
}
