/** Greedy word wrap, `wrap` in `crates/kubernation/src/almanac.rs`. */
module Wrap {
  import opened Text

  /** The measured width of a line. Only its behaviour on contiguous ranges matters. */
  type Measure = string -> real

  /** Taking words away from either end of a line never makes it wider. */
  ghost predicate Monotone(words: seq<string>, width: Measure) {
    forall i, j, k, l :: 0 <= i <= j < k <= l <= |words| ==> width(Join(words[j..k])) <= width(Join(words[i..l]))
  }

  /** A line may hold words i up to j: it fits, or it is a single word. */
  ghost predicate LineOk(words: seq<string>, width: Measure, maxW: real, i: nat, j: nat)
    requires j <= |words|
  {
    i < j && (j == i + 1 || width(Join(words[i..j])) <= maxW)
  }

  /** Line ends that break the words into acceptable lines: line n holds words
      `ends[n - 1]` up to `ends[n]`. */
  ghost predicate Breaking(words: seq<string>, width: Measure, maxW: real, ends: seq<nat>) {
    && Ordered(words, ends)
    && (forall n :: 0 <= n < |ends| ==> LineOk(words, width, maxW, Start(ends, n), ends[n]))
    && Start(ends, |ends|) == |words|
  }

  function Start(ends: seq<nat>, n: nat): nat
    requires n <= |ends|
  {
    if n == 0 then 0 else ends[n - 1]
  }

  lemma StartIs(ends: seq<nat>, n: nat)
    requires n <= |ends|
    ensures Start(ends, n) == if n == 0 then 0 else ends[n - 1]
  {
  }

  lemma StartsKept(ends: seq<nat>, i: nat)
    ensures forall n :: 0 <= n <= |ends| ==> Start(ends + [i], n) == Start(ends, n)
    ensures Start(ends + [i], |ends| + 1) == i
  {
  }

  predicate Ordered(words: seq<string>, ends: seq<nat>) {
    forall n :: 0 <= n < |ends| ==> Start(ends, n) < ends[n] <= |words|
  }

  /** The lines' text. */
  function LinesAt(words: seq<string>, ends: seq<nat>): seq<string>
    requires Ordered(words, ends)
  {
    seq(|ends|, n requires 0 <= n < |ends| => Join(words[Start(ends, n)..ends[n]]))
  }

  /** Lines grow word by word as long as they are acceptable, and the next word would not have fitted. */
  ghost predicate Greedy(words: seq<string>, width: Measure, maxW: real, ends: seq<nat>) {
    && Ordered(words, ends)
    && forall n :: 0 <= n < |ends| ==> GreedyLine(words, width, maxW, Start(ends, n), ends[n])
  }

  ghost predicate GreedyLine(words: seq<string>, width: Measure, maxW: real, i: nat, j: nat)
    requires i < j <= |words|
  {
    (forall k :: i < k <= j ==> LineOk(words, width, maxW, i, k))
    && (j < |words| ==> width(Join(words[i..j + 1])) > maxW)
  }

  lemma {:induction false} SameGreedyLine(words: seq<string>, width: Measure, maxW: real, ends: seq<nat>,
                                          other: seq<nat>, n: nat)
    requires Greedy(words, width, maxW, ends) && Greedy(words, width, maxW, other)
    requires Start(other, |other|) == |words| && n <= |ends|
    ensures n <= |other| && Start(ends, n) == Start(other, n)
  {
    hide GreedyLine, Start;
    StartIs(ends, n);
    if n > 0 {
      SameGreedyLine(words, width, maxW, ends, other, n - 1);
      StartIs(other, |other|);
      StartIs(other, n - 1);
      assert Start(ends, n - 1) < ends[n - 1] <= |words|;
      StartIs(other, n);
      OneGreedyLine(words, width, maxW, Start(ends, n - 1), ends[n - 1], other[n - 1]);
    } else {
      StartIs(other, 0);
    }
  }

  /** There is one greedy breaking, whatever the measure. */
  lemma GreedyIsUnique(words: seq<string>, width: Measure, maxW: real, ends: seq<nat>, other: seq<nat>)
    requires Greedy(words, width, maxW, ends) && Start(ends, |ends|) == |words|
    requires Greedy(words, width, maxW, other) && Start(other, |other|) == |words|
    ensures ends == other
  {
    hide Greedy;
    SameGreedyLine(words, width, maxW, ends, other, |ends|);
    SameGreedyLine(words, width, maxW, other, ends, |other|);
    forall i | 0 <= i < |ends|
      ensures ends[i] == other[i]
    {
      SameGreedyLine(words, width, maxW, ends, other, i + 1);
    }
  }

  lemma OneGreedyLine(words: seq<string>, width: Measure, maxW: real, i: nat, j: nat, k: nat)
    requires i < j <= |words| && i < k <= |words|
    requires GreedyLine(words, width, maxW, i, j) && GreedyLine(words, width, maxW, i, k)
    ensures j == k
  {
    assert j < k ==> LineOk(words, width, maxW, i, j + 1);
    assert k < j ==> LineOk(words, width, maxW, i, k + 1);
  }

  /** Greedy stays ahead: after n lines it has placed at least as many words as any breaking. */
  lemma {:induction false} GreedyStaysAhead(words: seq<string>, width: Measure, maxW: real, ends: seq<nat>,
                                            other: seq<nat>, n: nat)
    requires Monotone(words, width) && Greedy(words, width, maxW, ends) && Breaking(words, width, maxW, other)
    requires Breaking(words, width, maxW, ends) && n <= |ends| && n <= |other|
    ensures Start(other, n) <= Start(ends, n)
  {
    hide Join, Start;
    StartIs(ends, n);
    StartIs(other, n);
    if n > 0 {
      GreedyStaysAhead(words, width, maxW, ends, other, n - 1);
      var i, j, k, l := Start(other, n - 1), other[n - 1], Start(ends, n - 1), ends[n - 1];
      assert LineOk(words, width, maxW, i, j) && i <= k < l;
    }
  }

  /** No acceptable breaking uses fewer lines than a greedy one. */
  lemma GreedyIsOptimal(words: seq<string>, width: Measure, maxW: real, ends: seq<nat>, other: seq<nat>)
    requires Monotone(words, width) && Greedy(words, width, maxW, ends)
    requires Breaking(words, width, maxW, ends) && Breaking(words, width, maxW, other)
    ensures |ends| <= |other|
  {
    if |other| < |ends| {
      GreedyStaysAhead(words, width, maxW, ends, other, |other|);
    }
  }

  /** A line has grown from word i to word j, acceptable all the way. */
  ghost predicate GrowsTo(words: seq<string>, width: Measure, maxW: real, i: nat, j: nat) {
    i < j <= |words| && forall k :: i < k <= j ==> LineOk(words, width, maxW, i, k)
  }

  /** What the loop has placed when it reaches word `i`: finished lines, each broken as late as
      it could be, and a current line of the words since. */
  ghost predicate Placed(words: seq<string>, width: Measure, maxW: real, ends: seq<nat>, i: nat) {
    && i <= |words| && Ordered(words, ends) && Greedy(words, width, maxW, ends)
    && (forall n :: 0 <= n < |ends| ==> LineOk(words, width, maxW, Start(ends, n), ends[n]))
    && (if i == 0 then ends == [] else GrowsTo(words, width, maxW, Start(ends, |ends|), i))
  }

  lemma EndLine(words: seq<string>, width: Measure, maxW: real, ends: seq<nat>, i: nat)
    requires Placed(words, width, maxW, ends, i) && 0 < i
    requires i < |words| ==> width(Join(words[Start(ends, |ends|)..i + 1])) > maxW
    ensures var ends' := ends + [i];
      && Start(ends', |ends'|) == i && Ordered(words, ends')
      && Greedy(words, width, maxW, ends')
      && (forall n :: 0 <= n < |ends'| ==> LineOk(words, width, maxW, Start(ends', n), ends'[n]))
      && LinesAt(words, ends') == LinesAt(words, ends) + [Join(words[Start(ends, |ends|)..i])]
  {
    hide Join, Start;
    StartsKept(ends, i);
    StartIs(ends, 0);
    var ends' := ends + [i];
    assert forall n :: 0 <= n < |ends| ==> ends'[n] == ends[n];
  }

  lemma NextTrial(words: seq<string>, from: nat, i: nat)
    requires from <= i < |words| && AllWords(words)
    ensures var cur := Join(words[from..i]);
      && (cur == "" <==> from == i)
      && Join(words[from..i + 1]) == if cur == "" then words[i] else cur + " " + words[i]
  {
    WordsOfJoin(words[from..i]);
    assert words[from..i + 1] == words[from..i] + [words[i]];
  }

  /** The lines of the greedy breaking, which no other acceptable breaking beats; one empty line for no
      words. */
  ghost predicate BestLines(words: seq<string>, width: Measure, maxW: real, ends: seq<nat>, lines: seq<string>) {
    && Breaking(words, width, maxW, ends) && Greedy(words, width, maxW, ends)
    && lines == (if words == [] then [""] else LinesAt(words, ends))
    && forall other :: Monotone(words, width) && Breaking(words, width, maxW, other) ==> |ends| <= |other|
  }

  /** The wrapping loop. The lines hold exactly the words of `s`, in order; each fits or is one word, and
      takes no word of the next; and no way of breaking the words into such lines uses fewer. Text
      without a word yields one empty line. */
  method WrapText(s: string, maxW: real, width: Measure) returns (lines: seq<string>)
    ensures exists ends :: BestLines(Words(s), width, maxW, ends, lines)
  {
    hide Join, Words, Greedy, LineOk, Start;
    StartIs([], 0);
    var words := Words(s);
    lines := [];
    ghost var ends: seq<nat> := [];
    var cur := "";
    NothingPlaced(words, width, maxW);
    for i := 0 to |words|
      invariant Placed(words, width, maxW, ends, i) && Start(ends, |ends|) <= i
      invariant i > 0 ==> Start(ends, |ends|) < i
      invariant cur == Join(words[Start(ends, |ends|)..i])
      invariant Ordered(words, ends) && lines == LinesAt(words, ends)
    {
      var word := words[i];
      NextTrial(words, Start(ends, |ends|), i);
      var trial := if cur == "" then word else cur + " " + word;
      if width(trial) > maxW && cur != "" {
        EndLine(words, width, maxW, ends, i);
        StartsKept(ends, i);
        lines := lines + [cur];
        ends := ends + [i];
        cur := word;
        NextTrial(words, i, i);
        assert words[i..i] == [];
      } else {
        cur := trial;
      }
      LineGrows(words, width, maxW, Start(ends, |ends|), i + 1);
    }
    LastLine(words, Start(ends, |ends|));
    if cur != "" {
      EndLine(words, width, maxW, ends, |words|);
      lines := lines + [cur];
      ends := ends + [|words|];
    }
    if |lines| == 0 {
      lines := lines + [""];
    }
    forall other | Monotone(words, width) && Breaking(words, width, maxW, other)
      ensures |ends| <= |other|
    {
      GreedyIsOptimal(words, width, maxW, ends, other);
    }
    assert BestLines(words, width, maxW, ends, lines);
  }

  lemma NothingPlaced(words: seq<string>, width: Measure, maxW: real)
    ensures Placed(words, width, maxW, [], 0) && Join(words[0..0]) == ""
  {
  }

  lemma LineGrows(words: seq<string>, width: Measure, maxW: real, from: nat, to: nat)
    requires from < to <= |words| && (to == from + 1 || width(Join(words[from..to])) <= maxW)
    requires to == from + 1 || GrowsTo(words, width, maxW, from, to - 1)
    ensures GrowsTo(words, width, maxW, from, to)
  {
  }

  lemma LastLine(words: seq<string>, from: nat)
    requires from <= |words| && AllWords(words)
    ensures Join(words[from..|words|]) == "" <==> from == |words|
  {
    WordsOfJoin(words[from..|words|]);
  }

  /** Reading the lines back gives the words of the text: nothing is lost, split or reordered. */
  lemma {:induction false} LinesKeepWords(words: seq<string>, width: Measure, maxW: real, ends: seq<nat>, n: nat)
    requires AllWords(words) && Breaking(words, width, maxW, ends) && n <= |ends|
    ensures Words(Join(LinesAt(words, ends)[..n])) == words[..Start(ends, n)]
  {
    hide Words, IsWord, Join, Start;
    StartIs(ends, n);
    var lines := LinesAt(words, ends);
    if n == 0 {
      WordsOfJoin([]);
      assert lines[..0] == [] && words[..0] == [];
    } else {
      LinesKeepWords(words, width, maxW, ends, n - 1);
      var i, j := Start(ends, n - 1), ends[n - 1];
      assert LineOk(words, width, maxW, i, j);
      SubWords(words, i, j);
      WordsOfJoin(words[i..j]);
      assert lines[..n] == lines[..n - 1] + [lines[n - 1]];
      LineAfter(lines[..n - 1], lines[n - 1]);
      assert words[..j] == words[..i] + words[i..j];
    }
  }

  lemma SubWords(words: seq<string>, i: nat, j: nat)
    requires AllWords(words) && i <= j <= |words|
    ensures AllWords(words[i..j])
  {
  }

  lemma LineAfter(lines: seq<string>, line: string)
    ensures Words(Join(lines + [line])) == Words(Join(lines)) + Words(line)
  {
    if lines != [] {
      var last := " " + line;
      assert last[1..] == line;
      WordsThen(Join(lines), last);
      assert (lines + [line])[..|lines|] == lines;
      assert Join(lines + [line]) == Join(lines) + last;
    }
  }
}
