/**
 Word wrap for the login banner: each line takes as many words as fit, and a
 finding gets a limited number of lines.
 */
module BannerWrap {

  const INDENT: string := "   "

  function Prefix(severity: string): string {
    " [" + severity + "] "
  }

  /** The words joined by single spaces. */
  function Join(ws: seq<string>): string {
    if ws == [] then ""
    else if |ws| == 1 then ws[0]
    else Join(ws[..|ws| - 1]) + " " + ws[|ws| - 1]
  }

  /** The length of words[s..e] joined by single spaces. */
  function Width(words: seq<string>, s: nat, e: nat): nat
    requires s <= e <= |words|
  {
    if s == e then 0
    else if s + 1 == e then |words[s]|
    else Width(words, s, e - 1) + 1 + |words[e - 1]|
  }

  /** A line from s to e is acceptable if it fits or holds a single word. */
  predicate Fits(words: seq<string>, s: nat, e: nat, w: int)
    requires s < e <= |words|
  {
    e == s + 1 || Width(words, s, e) <= w
  }

  function Grow(words: seq<string>, s: nat, e: nat, w: int): (r: nat)
    requires s < e <= |words|
    ensures e <= r <= |words|
    decreases |words| - e
  {
    if e < |words| && Width(words, s, e + 1) <= w then Grow(words, s, e + 1, w) else e
  }

  /** Where the greedy line that starts at word s ends. */
  function LineEnd(words: seq<string>, s: nat, w: int): (r: nat)
    requires s < |words|
    ensures s < r <= |words|
  {
    Grow(words, s, s + 1, w)
  }

  /** The word reached after n greedy lines from word s; the first line has width w, the others width rest. */
  function Reach(words: seq<string>, s: nat, n: nat, w: int, rest: int): (r: nat)
    requires s <= |words|
    ensures s <= r <= |words|
    decreases |words| - s
  {
    if n == 0 || s == |words| then s
    else Reach(words, LineEnd(words, s, w), n - 1, rest, rest)
  }

  /** The words of these lines. */
  function Lines(words: seq<string>, s: nat, n: nat, w: int, rest: int): seq<seq<string>>
    requires s <= |words|
    decreases |words| - s
  {
    if n == 0 || s == |words| then []
    else
      var e := LineEnd(words, s, w);
      [words[s..e]] + Lines(words, e, n - 1, rest, rest)
  }

  function Flatten(lines: seq<seq<string>>): seq<string> {
    if lines == [] then [] else lines[0] + Flatten(lines[1..])
  }

  function Rendered(lines: seq<seq<string>>, prefix: string): seq<string> {
    seq(|lines|, i requires 0 <= i < |lines| => (if i == 0 then prefix else INDENT) + Join(lines[i]))
  }

  /**
   What the wrap prints. With a line limit below one it still prints the first
   line of a summary that needs more than one.
   */
  function Wrapped(severity: string, words: seq<string>, width: int, maxLines: int): seq<string> {
    var first, rest := width - |Prefix(severity)|, width - |INDENT|;
    if maxLines >= 1 then Rendered(Lines(words, 0, maxLines, first, rest), Prefix(severity))
    else if words == [] || LineEnd(words, 0, first) == |words| then []
    else Rendered(Lines(words, 0, 1, first, rest), Prefix(severity))
  }

  // ---- Greedy is optimal -------------------------------------------------------

  lemma {:induction false} JoinWidth(words: seq<string>, s: nat, e: nat)
    requires s <= e <= |words|
    ensures |Join(words[s..e])| == Width(words, s, e)
    decreases e
  {
    if s + 1 < e {
      assert words[s..e][..e - s - 1] == words[s..e - 1];
      JoinWidth(words, s, e - 1);
    }
  }

  lemma {:induction false} WidthShrinks(words: seq<string>, s: nat, s': nat, e: nat, e': nat)
    requires s <= s' <= e' <= e <= |words|
    ensures Width(words, s', e') <= Width(words, s, e)
    decreases e
  {
    if e' < e {
      WidthShrinks(words, s, s', e - 1, e');
    } else if s' < e && s < e - 1 {
      WidthShrinks(words, s, if s' < e - 1 then s' else e - 1, e - 1, e - 1);
    }
  }

  /** The greedy line fits, and it could not take one word more. */
  lemma {:induction false} GrowIsMaximal(words: seq<string>, s: nat, e: nat, w: int)
    requires s < e <= |words| && Fits(words, s, e, w)
    ensures Fits(words, s, Grow(words, s, e, w), w)
    ensures Grow(words, s, e, w) < |words| ==> Width(words, s, Grow(words, s, e, w) + 1) > w
    decreases |words| - e
  {
    if e < |words| && Width(words, s, e + 1) <= w {
      GrowIsMaximal(words, s, e + 1, w);
    }
  }

  /** A line that starts no later than the greedy one ends no later either. */
  lemma LineEndAhead(words: seq<string>, s: nat, t: nat, e: nat, w: int)
    requires s <= t < |words| && s < e <= |words| && Fits(words, s, e, w)
    ensures e <= LineEnd(words, t, w)
  {
    GrowIsMaximal(words, t, t + 1, w);
    var r := LineEnd(words, t, w);
    if r < e {
      WidthShrinks(words, s, t, e, r + 1);
    }
  }

  lemma {:induction false} ReachMonotone(words: seq<string>, s: nat, t: nat, n: nat, w: int, rest: int)
    requires s <= t <= |words|
    ensures Reach(words, s, n, w, rest) <= Reach(words, t, n, w, rest)
    decreases n
  {
    if n > 0 && t < |words| {
      GrowIsMaximal(words, s, s + 1, w);
      LineEndAhead(words, s, t, LineEnd(words, s, w), w);
      ReachMonotone(words, LineEnd(words, s, w), LineEnd(words, t, w), n - 1, rest, rest);
    }
  }

  /** A layout of words from s on: non-empty lines in word order, each of which fits or holds one word. */
  ghost predicate Layout(words: seq<string>, s: nat, lines: seq<seq<string>>, w: int, rest: int)
    requires s <= |words|
    decreases |lines|
  {
    lines == [] ||
    (&& lines[0] != [] && s + |lines[0]| <= |words|
     && lines[0] == words[s..s + |lines[0]|]
     && Fits(words, s, s + |lines[0]|, w)
     && Layout(words, s + |lines[0]|, lines[1..], rest, rest))
  }

  function WordCount(lines: seq<seq<string>>): nat {
    if lines == [] then 0 else |lines[0]| + WordCount(lines[1..])
  }

  lemma {:induction false} FlattenCount(lines: seq<seq<string>>)
    ensures |Flatten(lines)| == WordCount(lines)
  {
    if lines == [] {
    } else {
      FlattenCount(lines[1..]);
    }
  }

  lemma LayoutHead(words: seq<string>, s: nat, lines: seq<seq<string>>, w: int, rest: int) returns (e: nat)
    requires s <= |words| && lines != [] && Layout(words, s, lines, w, rest)
    ensures s < e <= |words| && Fits(words, s, e, w) && Layout(words, e, lines[1..], rest, rest)
    ensures WordCount(lines) == e - s + WordCount(lines[1..])
  {
    e := s + |lines[0]|;
  }

  lemma ReachStep(words: seq<string>, s: nat, e: nat, n: nat, w: int, rest: int)
    requires s < e <= |words| && Fits(words, s, e, w) && n > 0
    ensures Reach(words, e, n - 1, rest, rest) <= Reach(words, s, n, w, rest)
  {
    LineEndAhead(words, s, s, e, w);
    ReachMonotone(words, e, LineEnd(words, s, w), n - 1, rest, rest);
  }

  lemma {:induction false} LayoutCovers(words: seq<string>, s: nat, lines: seq<seq<string>>, n: nat, w: int, rest: int)
    requires s <= |words| && Layout(words, s, lines, w, rest) && |lines| <= n
    ensures s + WordCount(lines) <= Reach(words, s, n, w, rest)
    decreases n
  {
    if lines == [] {
    } else {
      var e := LayoutHead(words, s, lines, w, rest);
      var tail := lines[1..];
      assert |tail| <= n - 1;
      LayoutCovers(words, e, tail, n - 1, rest, rest);
      ReachStep(words, s, e, n, w, rest);
    }
  }

  lemma {:induction false} LinesAreALayout(words: seq<string>, s: nat, n: nat, w: int, rest: int)
    requires s <= |words|
    ensures Layout(words, s, Lines(words, s, n, w, rest), w, rest)
    ensures |Lines(words, s, n, w, rest)| <= n
    decreases n
  {
    if n > 0 && s < |words| {
      var e := LineEnd(words, s, w);
      GrowIsMaximal(words, s, s + 1, w);
      LinesAreALayout(words, e, n - 1, rest, rest);
      assert Lines(words, s, n, w, rest)[1..] == Lines(words, e, n - 1, rest, rest);
      assert Lines(words, s, n, w, rest)[0] == words[s..e];
    }
  }

  lemma {:induction false} LinesFlatten(words: seq<string>, s: nat, n: nat, w: int, rest: int)
    requires s <= |words|
    ensures Flatten(Lines(words, s, n, w, rest)) == words[s..Reach(words, s, n, w, rest)]
    decreases n
  {
    if n > 0 && s < |words| {
      var e := LineEnd(words, s, w);
      LinesFlatten(words, e, n - 1, rest, rest);
      assert Lines(words, s, n, w, rest)[1..] == Lines(words, e, n - 1, rest, rest);
    }
  }

  /**
   Main result. The wrap shows a prefix of the words, in order, in a valid layout, and no valid
   layout in as many lines shows more; so words are lost only when no layout holds them all.
   */
  lemma WrapIsOptimal(words: seq<string>, n: nat, w: int, rest: int, other: seq<seq<string>>)
    requires Layout(words, 0, other, w, rest) && |other| <= n
    ensures var lines := Lines(words, 0, n, w, rest);
            && Layout(words, 0, lines, w, rest) && |lines| <= n
            && Flatten(lines) <= words
            && |Flatten(other)| <= |Flatten(lines)|
            && (Flatten(lines) != words ==> Flatten(other) != words)
  {
    LinesAreALayout(words, 0, n, w, rest);
    LinesFlatten(words, 0, n, w, rest);
    LayoutCovers(words, 0, other, n, w, rest);
    FlattenCount(other);
  }

  /** A printed line longer than its width holds exactly one word. */
  lemma {:induction false} LongLinesAreSingleWords(words: seq<string>, s: nat, lines: seq<seq<string>>, w: int, rest: int, i: nat)
    requires s <= |words| && Layout(words, s, lines, w, rest) && i < |lines|
    requires |Join(lines[i])| > (if i == 0 then w else rest)
    ensures |lines[i]| == 1
    decreases i
  {
    if i == 0 {
      JoinWidth(words, s, s + |lines[0]|);
    } else {
      LongLinesAreSingleWords(words, s + |lines[0]|, lines[1..], rest, rest, i - 1);
    }
  }

  // ---- The loop ----------------------------------------------------------------

  lemma {:induction false} LinesSplit(words: seq<string>, s: nat, k: nat, n: nat, w: int, rest: int)
    requires s <= |words| && k <= n
    ensures Lines(words, s, n, w, rest) ==
            Lines(words, s, k, w, rest) + Lines(words, Reach(words, s, k, w, rest), n - k, if k == 0 then w else rest, rest)
    decreases k
  {
    if k > 0 && s < |words| {
      LinesSplit(words, LineEnd(words, s, w), k - 1, n - 1, rest, rest);
    }
  }

  lemma RenderedAppend(lines: seq<seq<string>>, line: seq<string>, prefix: string)
    ensures Rendered(lines + [line], prefix) ==
            Rendered(lines, prefix) + [(if lines == [] then prefix else INDENT) + Join(line)]
  {
  }

  /** One more greedy line after the first k. */
  lemma OneMoreLine(words: seq<string>, k: nat, w: int, rest: int)
    requires |Lines(words, 0, k, w, rest)| == k && Reach(words, 0, k, w, rest) < |words|
    ensures var s := Reach(words, 0, k, w, rest);
            var e := LineEnd(words, s, if k == 0 then w else rest);
            && Lines(words, 0, k + 1, w, rest) == Lines(words, 0, k, w, rest) + [words[s..e]]
            && Reach(words, 0, k + 1, w, rest) == e
  {
    LinesSplit(words, 0, k, k + 1, w, rest);
    ReachSplit(words, 0, k, w, rest);
  }

  lemma {:induction false} ReachSplit(words: seq<string>, s: nat, k: nat, w: int, rest: int)
    requires s <= |words| && Reach(words, s, k, w, rest) < |words|
    ensures Reach(words, s, k + 1, w, rest) ==
            LineEnd(words, Reach(words, s, k, w, rest), if k == 0 then w else rest)
    decreases k
  {
    if k == 0 {
    } else {
      ReachSplit(words, LineEnd(words, s, w), k - 1, rest, rest);
    }
  }

  lemma {:induction false} LinesDone(words: seq<string>, s: nat, k: nat, n: nat, w: int, rest: int)
    requires s <= |words| && k <= n && Reach(words, s, k, w, rest) == |words|
    ensures Lines(words, s, n, w, rest) == Lines(words, s, k, w, rest)
  {
    LinesSplit(words, s, k, n, w, rest);
  }

  lemma GrowStep(words: seq<string>, s: nat, e: nat, w: int)
    requires s < e < |words|
    ensures Width(words, s, e + 1) <= w ==> Grow(words, s, e, w) == Grow(words, s, e + 1, w)
    ensures Width(words, s, e + 1) > w ==> Grow(words, s, e, w) == e
  {
  }

  lemma JoinGrows(words: seq<string>, s: nat, e: nat)
    requires s < e < |words|
    ensures Join(words[s..e + 1]) == Join(words[s..e]) + " " + words[e]
    ensures |Join(words[s..e])| + 1 + |words[e]| == Width(words, s, e + 1)
  {
    assert words[s..e + 1][..e - s] == words[s..e];
    JoinWidth(words, s, e);
  }

  lemma JoinNonEmpty(ws: seq<string>)
    requires ws != [] && forall i :: 0 <= i < |ws| ==> ws[i] != ""
    ensures Join(ws) != ""
  {
    assert |ws[|ws| - 1]| > 0;
    assert |Join(ws)| > 0;
  }

  /** `lines` are the printed form of the first |lines| greedy lines, which end at word s. */
  ghost predicate Placed(words: seq<string>, prefix: string, lines: seq<string>, s: nat, first: int, rest: int) {
    && s == Reach(words, 0, |lines|, first, rest)
    && |Lines(words, 0, |lines|, first, rest)| == |lines|
    && lines == Rendered(Lines(words, 0, |lines|, first, rest), prefix)
  }

  function WidthFor(lines: seq<string>, first: int, rest: int): int {
    if lines == [] then first else rest
  }

  function Begin(lines: seq<string>, prefix: string): string {
    if lines == [] then prefix else INDENT
  }

  lemma PlaceLine(words: seq<string>, prefix: string, lines: seq<string>, s: nat, e: nat, first: int, rest: int)
    requires Placed(words, prefix, lines, s, first, rest)
    requires s < e <= |words| && LineEnd(words, s, WidthFor(lines, first, rest)) == e
    ensures Placed(words, prefix, lines + [Begin(lines, prefix) + Join(words[s..e])], e, first, rest)
  {
    OneMoreLine(words, |lines|, first, rest);
    RenderedAppend(Lines(words, 0, |lines|, first, rest), words[s..e], prefix);
  }

  lemma AllPlaced(words: seq<string>, severity: string, lines: seq<string>, width: int, maxLines: int)
    requires Placed(words, Prefix(severity), lines, |words|, width - |Prefix(severity)|, width - |INDENT|)
    requires |lines| <= maxLines && 1 <= maxLines
    ensures lines == Wrapped(severity, words, width, maxLines)
  {
    LinesDone(words, 0, |lines|, maxLines, width - |Prefix(severity)|, width - |INDENT|);
  }

  lemma FullyPlaced(words: seq<string>, severity: string, lines: seq<string>, s: nat, width: int, maxLines: int)
    requires Placed(words, Prefix(severity), lines, s, width - |Prefix(severity)|, width - |INDENT|)
    requires |lines| == if maxLines >= 1 then maxLines else 1
    requires words != [] && LineEnd(words, 0, width - |Prefix(severity)|) < |words|
    ensures lines == Wrapped(severity, words, width, maxLines)
  {
  }

  lemma NothingPlaced(words: seq<string>, severity: string, width: int, maxLines: int)
    requires words == [] || (maxLines < 1 && LineEnd(words, 0, width - |Prefix(severity)|) == |words|)
    ensures Wrapped(severity, words, width, maxLines) == []
  {
  }

  lemma FirstLineEnds(words: seq<string>, prefix: string, lines: seq<string>, s: nat, first: int, rest: int)
    requires Placed(words, prefix, lines, s, first, rest) && lines != [] && s < |words|
    ensures words != [] && LineEnd(words, 0, first) < |words|
  {
  }

  /** The lines carry a layout, the first one behind the severity tag and the others behind three blanks. */
  ghost predicate Prints(lines: seq<string>, severity: string, layout: seq<seq<string>>) {
    && |lines| == |layout|
    && forall i :: 0 <= i < |lines| ==> lines[i] == (if i == 0 then " [" + severity + "] " else "   ") + Join(layout[i])
  }

  lemma TagWidths(severity: string)
    ensures |Prefix(severity)| == |severity| + 4 && |INDENT| == 3
  {
  }

  lemma RenderedPrints(layout: seq<seq<string>>, severity: string)
    ensures Prints(Rendered(layout, Prefix(severity)), severity, layout)
  {
  }

  lemma WrappedPrints(severity: string, words: seq<string>, width: int, maxLines: nat)
    requires maxLines >= 1
    ensures Prints(Wrapped(severity, words, width, maxLines), severity,
                   Lines(words, 0, maxLines, width - |severity| - 4, width - 3))
  {
    TagWidths(severity);
    RenderedPrints(Lines(words, 0, maxLines, width - |severity| - 4, width - 3), severity);
  }

  // ---- Reading a line back ------------------------------------------------------

  /** The words of a text, separated by any number of spaces. */
  function Split(text: string): (words: seq<string>)
    ensures text != "" && text[|text| - 1] != ' ' ==> words != []
  {
    if text == "" then []
    else
      var n := |text| - 1;
      var words := Split(text[..n]);
      if text[n] == ' ' then words
      else if n == 0 || text[n - 1] == ' ' then words + [[text[n]]]
      else words[..|words| - 1] + [words[|words| - 1] + [text[n]]]
  }

  predicate IsWord(w: string) {
    w != "" && ' ' !in w
  }

  lemma SplitSnoc(text: string, c: char)
    ensures c == ' ' ==> Split(text + [c]) == Split(text)
    ensures c != ' ' && (text == "" || text[|text| - 1] == ' ') ==> Split(text + [c]) == Split(text) + [[c]]
    ensures c != ' ' && text != "" && text[|text| - 1] != ' ' ==>
              var words := Split(text);
              words != [] && Split(text + [c]) == words[..|words| - 1] + [words[|words| - 1] + [c]]
  {
    assert (text + [c])[..|text|] == text;
  }

  lemma {:induction false} SplitAppendWord(text: string, w: string)
    requires IsWord(w) && (text == "" || text[|text| - 1] == ' ')
    ensures Split(text + w) == Split(text) + [w]
  {
    var n := |w| - 1;
    assert w == w[..n] + [w[n]] && w[n] in w;
    assert text + w == (text + w[..n]) + [w[n]];
    SplitSnoc(text + w[..n], w[n]);
    if n == 0 {
      assert text + w[..n] == text;
    } else {
      assert w[n - 1] in w && forall c :: c in w[..n] ==> c in w;
      SplitAppendWord(text, w[..n]);
    }
  }

  /** Main result: a line's words can be read back from its text. */
  lemma {:induction false} JoinReadsBack(ws: seq<string>)
    requires forall i :: 0 <= i < |ws| ==> IsWord(ws[i])
    ensures Split(Join(ws)) == ws
  {
    if ws == [] {
    } else if |ws| == 1 {
      assert "" + ws[0] == ws[0];
      SplitAppendWord("", ws[0]);
    } else {
      var init, last := ws[..|ws| - 1], ws[|ws| - 1];
      JoinReadsBack(init);
      SplitSnoc(Join(init), ' ');
      SplitAppendWord(Join(init) + " ", last);
      assert ws == init + [last];
    }
  }

  /** `words` are the summary's words as Python's `split` yields them: none is empty. */
  method WrapFinding(severity: string, words: seq<string>, width: int, maxLines: int) returns (lines: seq<string>)
    requires forall i :: 0 <= i < |words| ==> words[i] != ""
    ensures lines == Wrapped(severity, words, width, maxLines)
    ensures maxLines >= 1 ==> Prints(lines, severity, Lines(words, 0, maxLines, width - |severity| - 4, width - 3))
  {
    var prefix := Prefix(severity);
    var firstWidth := width - |prefix|;
    var restWidth := width - |INDENT|;
    lines := [];
    var current := "";
    ghost var s := 0;  // where the current line starts
    for i := 0 to |words|
      invariant 0 <= s <= i && (i == 0 <==> s == i)
      invariant current == Join(words[s..i])
      invariant Placed(words, prefix, lines, s, firstWidth, restWidth)
      invariant lines == [] || |lines| < maxLines
      invariant s < i ==> LineEnd(words, s, WidthFor(lines, firstWidth, restWidth))
                          == Grow(words, s, i, WidthFor(lines, firstWidth, restWidth))
    {
      var word := words[i];
      assert words[i..i + 1] == [word];
      if s < i {
        JoinNonEmpty(words[s..i]);
        JoinGrows(words, s, i);
        GrowStep(words, s, i, WidthFor(lines, firstWidth, restWidth));
      }
      if current == "" {
        current := word;
      } else if |current| + 1 + |word| <= (if lines == [] then firstWidth else restWidth) {
        current := current + " " + word;
      } else {
        PlaceLine(words, prefix, lines, s, i, firstWidth, restWidth);
        if lines == [] {
          lines := lines + [prefix + current];
        } else {
          lines := lines + [INDENT + current];
        }
        current := word;
        s := i;
        if |lines| >= maxLines {
          FirstLineEnds(words, prefix, lines, s, firstWidth, restWidth);
          FullyPlaced(words, severity, lines, s, width, maxLines);
          break;
        }
      }
    }
    if current != "" && |lines| < maxLines {
      PlaceLine(words, prefix, lines, s, |words|, firstWidth, restWidth);
      if lines == [] {
        lines := lines + [prefix + current];
      } else {
        lines := lines + [INDENT + current];
      }
      AllPlaced(words, severity, lines, width, maxLines);
    } else if lines == [] {
      NothingPlaced(words, severity, width, maxLines);
    }
    if maxLines >= 1 {
      WrappedPrints(severity, words, width, maxLines);
    }
  }
}
