/** White space as Rust's `str::trim` and `split_whitespace` see it. */
module Text {

  predicate IsSpace(c: char) {
    || '\U{9}' <= c <= '\U{d}' || c == ' ' || c == '\U{85}' || c == '\U{a0}' || c == '\U{1680}'
    || '\U{2000}' <= c <= '\U{200a}' || c == '\U{2028}' || c == '\U{2029}' || c == '\U{202f}'
    || c == '\U{205f}' || c == '\U{3000}'
  }

  /** The 25 characters that Unicode calls white space. */
  lemma SpacesAre(c: char)
    ensures IsSpace(c) <==> c as int in {
      0x09, 0x0A, 0x0B, 0x0C, 0x0D, 0x20, 0x85, 0xA0, 0x1680, 0x2000, 0x2001, 0x2002, 0x2003, 0x2004, 0x2005, 0x2006,
      0x2007, 0x2008, 0x2009, 0x200A, 0x2028, 0x2029, 0x202F, 0x205F, 0x3000}
  {
  }

  /** A word: not empty, and no white space in it. */
  predicate IsWord(w: string) {
    w != "" && forall i :: 0 <= i < |w| ==> !IsSpace(w[i])
  }

  predicate AllWords(ws: seq<string>) {
    forall i :: 0 <= i < |ws| ==> IsWord(ws[i])
  }

  /** `s.split_whitespace()`: the maximal runs of non-white-space, in order. */
  function Words(s: string): (ws: seq<string>)
    ensures AllWords(ws)
    decreases |s|
  {
    if s == "" then []
    else if IsSpace(s[0]) then Words(s[1..])
    else var n := WordEnd(s, 0); [s[..n]] + Words(s[n..])
  }

  /** Where the word that covers position `i` ends. */
  function WordEnd(s: string, i: nat): (n: nat)
    requires i <= |s|
    ensures i <= n <= |s|
    ensures i < |s| && !IsSpace(s[i]) ==> i < n
    ensures forall k :: i <= k < n ==> !IsSpace(s[k])
    ensures n < |s| ==> IsSpace(s[n])
    decreases |s| - i
  {
    if i == |s| || IsSpace(s[i]) then i else WordEnd(s, i + 1)
  }

  /** The words with one space between neighbours. */
  function Join(ws: seq<string>): string {
    if ws == [] then ""
    else if |ws| == 1 then ws[0]
    else Join(ws[..|ws| - 1]) + " " + ws[|ws| - 1]
  }

  lemma WordEndUnique(s: string, n: nat)
    requires n <= |s| && (forall k :: 0 <= k < n ==> !IsSpace(s[k])) && (n < |s| ==> IsSpace(s[n]))
    ensures WordEnd(s, 0) == n
  {
  }

  /** Splitting what was joined finds the same words, whatever follows after a space. */
  lemma {:induction false} WordsOfWordThen(w: string, rest: string)
    requires IsWord(w) && (rest == "" || IsSpace(rest[0]))
    ensures Words(w + rest) == [w] + Words(rest)
  {
    WordEndUnique(w + rest, |w|);
    assert (w + rest)[..|w|] == w && (w + rest)[|w|..] == rest;
  }

  lemma {:induction false} WordsThen(s: string, rest: string)
    requires rest == "" || IsSpace(rest[0])
    ensures Words(s + rest) == Words(s) + Words(rest)
    decreases |s|
  {
    hide IsSpace, WordEnd;
    if s == "" {
      assert s + rest == rest;
    } else if IsSpace(s[0]) {
      assert (s + rest)[1..] == s[1..] + rest;
      WordsThen(s[1..], rest);
    } else {
      var n := WordEnd(s, 0);
      assert s[..n] + (s[n..] + rest) == s + rest;
      assert s[n..] + rest == "" || IsSpace((s[n..] + rest)[0]);
      WordsOfWordThen(s[..n], s[n..] + rest);
      WordsThen(s[n..], rest);
      assert Words(s) == [s[..n]] + Words(s[n..]);
    }
  }

  lemma {:induction false} WordsOfJoin(ws: seq<string>)
    requires AllWords(ws)
    ensures Words(Join(ws)) == ws
    ensures Join(ws) == "" <==> ws == []
    decreases |ws|
  {
    if |ws| == 1 {
      WordsOfWordThen(ws[0], "");
      assert ws[0] + "" == ws[0];
    } else if |ws| > 1 {
      var n := |ws| - 1;
      WordsOfJoin(ws[..n]);
      var last := " " + ws[n];
      assert last[1..] == ws[n];
      WordsOfWordThen(ws[n], "");
      assert ws[n] + "" == ws[n];
      WordsThen(Join(ws[..n]), last);
      assert Join(ws) == Join(ws[..n]) + last;
      assert ws == ws[..n] + [ws[n]];
    }
  }
}
