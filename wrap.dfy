/**
 * The text of one card (lines 166-194 of `draw_cards_to_pdf`): the question
 * is split into words and wrapped greedily, each word going onto the current
 * line when the joined line still measures at most `card_width - 20`, and
 * the lines are then placed one line height apart, the block centred
 * vertically and each line centred horizontally.
 *
 * Text measurement (`c.stringWidth` in 10 pt Helvetica-Bold) is an arbitrary
 * function `width` from strings to points. Nothing is assumed about it,
 * except by the lemmas about over-wide words, which need `Monotone(width)`.
 */
module Wrap {
  import opened Text

  /** Padding between the card border and its text, on each side. */
  const Padding: real := 10.0

  /** Distance between two baselines. */
  const LineHeight: real := 12.0

  /** `max_width = card_width - 20`. */
  function MaxWidth(cardWidth: real): real
  {
    cardWidth - 2.0 * Padding
  }

  /** The words `ws`, joined by single spaces, measure at most `maxWidth`. */
  predicate Fits(width: string -> real, maxWidth: real, ws: seq<string>)
  {
    width(Join(ws)) <= maxWidth
  }

  /**
   * The wrapping loop from a state: the finished lines `done` (as word lists),
   * the words of the current line, and the words still to place.
   */
  function WrapFrom(width: string -> real, maxWidth: real, done: seq<seq<string>>, current: seq<string>, words: seq<string>): seq<seq<string>>
    decreases |words|
  {
    if words == [] then
      if current != [] then done + [current] else done
    else if Fits(width, maxWidth, current + [words[0]]) then
      WrapFrom(width, maxWidth, done, current + [words[0]], words[1..])
    else
      WrapFrom(width, maxWidth, done + [current], [words[0]], words[1..])
  }

  /** The lines of a question with words `words`, each as its list of words. */
  function WrapGroups(width: string -> real, maxWidth: real, words: seq<string>): seq<seq<string>>
  {
    WrapFrom(width, maxWidth, [], [], words)
  }

  function JoinEach(groups: seq<seq<string>>): (lines: seq<string>)
    ensures |lines| == |groups|
  {
    seq(|groups|, i requires 0 <= i < |groups| => Join(groups[i]))
  }

  function SplitEach(lines: seq<string>): (groups: seq<seq<string>>)
    ensures |groups| == |lines|
  {
    seq(|lines|, i requires 0 <= i < |lines| => Split(lines[i]))
  }

  /**
   * Lines 167-183: wrap `question` for a card `cardWidth` wide, so for text
   * at most `MaxWidth(cardWidth)` wide. The
   * words of the lines are the words of the question, in order; a line of
   * two or more words fits; only the first line can be empty, and it is
   * exactly when the first word alone is too wide.
   */
  method WrapQuestion(question: string, width: string -> real, cardWidth: real) returns (lines: seq<string>)
    ensures lines == JoinEach(WrapGroups(width, MaxWidth(cardWidth), Split(question)))
    ensures Flatten(SplitEach(lines)) == Split(question)
    ensures forall i :: 0 <= i < |lines| && |Split(lines[i])| >= 2 ==> width(lines[i]) <= MaxWidth(cardWidth)
    ensures forall i :: 0 <= i < |lines| && lines[i] == "" ==> i == 0
    ensures (|lines| > 0 && lines[0] == "") <==> (Split(question) != [] && width(Split(question)[0]) > MaxWidth(cardWidth))
    // when every word fits alone, every line fits and none is empty
    ensures (forall k :: 0 <= k < |Split(question)| ==> width(Split(question)[k]) <= MaxWidth(cardWidth)) ==>
              forall i :: 0 <= i < |lines| ==> lines[i] != "" && width(lines[i]) <= MaxWidth(cardWidth)
  {
    var maxWidth := MaxWidth(cardWidth);
    var words := Split(question);
    lines := [];
    var currentLine: seq<string> := [];
    ghost var done: seq<seq<string>> := [];
    for i := 0 to |words|
      invariant lines == JoinEach(done)
      invariant WrapFrom(width, maxWidth, done, currentLine, words[i..]) == WrapGroups(width, maxWidth, words)
    {
      assert words[i..] == [words[i]] + words[i + 1..];
      var word := words[i];
      var testLine := Join(currentLine + [word]);
      if width(testLine) <= maxWidth {
        currentLine := currentLine + [word];
      } else {
        lines := lines + [Join(currentLine)];
        done := done + [currentLine];
        currentLine := [word];
      }
    }
    if currentLine != [] {
      lines := lines + [Join(currentLine)];
      done := done + [currentLine];
    }
    WrapLinesFacts(width, maxWidth, words, lines);
    if forall k :: 0 <= k < |words| ==> width(words[k]) <= maxWidth {
      WrapLinesFit(width, maxWidth, words, lines);
    }
  }

  /**
   * Lines 185-194: the baseline of each line and where it starts. The text
   * block of `|lines|` line heights is centred vertically on the card and
   * each line horizontally.
   */
  method PlaceLines(lines: seq<string>, width: string -> real, x: real, y: real, cardWidth: real, cardHeight: real)
    returns (positions: seq<(real, real)>)
    ensures |positions| == |lines|
    // as much room left of each line as right of it
    ensures forall i :: 0 <= i < |lines| ==> positions[i].0 - x == (x + cardWidth) - (positions[i].0 + width(lines[i]))
    // baselines one line height apart, top to bottom
    ensures forall i :: 0 <= i < |lines| - 1 ==> positions[i + 1].1 == positions[i].1 - LineHeight
    // as much room above the first line as below the last baseline
    ensures |lines| > 0 ==> (y + cardHeight) - (positions[0].1 + LineHeight) == positions[|lines| - 1].1 - y
  {
    var blockHeight := |lines| as real * LineHeight;
    var top := y + (cardHeight - blockHeight) / 2.0 + blockHeight;
    var textY := top;
    positions := [];
    for i := 0 to |lines|
      invariant |positions| == i
      invariant textY == top - i as real * LineHeight
      invariant forall k :: 0 <= k < i ==>
                  positions[k] == (x + (cardWidth - width(lines[k])) / 2.0, top - (k + 1) as real * LineHeight)
    {
      var lineWidth := width(lines[i]);
      textY := textY - LineHeight;
      positions := positions + [(x + (cardWidth - lineWidth) / 2.0, textY)];
    }
  }

  // ---------------------------------------------------------------- lemmas

  /** The lines are well formed: after the first none is empty, every line of two or more words fits, and each next line begins with a word that did not fit on the previous one. */
  predicate Greedy(width: string -> real, maxWidth: real, groups: seq<seq<string>>)
  {
    && (forall i :: 0 < i < |groups| ==> groups[i] != [])
    && (forall i :: 0 <= i < |groups| && |groups[i]| >= 2 ==> Fits(width, maxWidth, groups[i]))
    && (forall i :: 0 <= i < |groups| - 1 && groups[i + 1] != [] ==>
          !Fits(width, maxWidth, groups[i] + [groups[i + 1][0]]))
  }

  /** What the loop keeps of its finished lines and its current line. */
  predicate GreedyState(width: string -> real, maxWidth: real, done: seq<seq<string>>, current: seq<string>)
  {
    && Greedy(width, maxWidth, done)
    && (|current| >= 2 ==> Fits(width, maxWidth, current))
    && (done != [] ==> current != [] && !Fits(width, maxWidth, done[|done| - 1] + [current[0]]))
  }

  lemma GreedyPush(width: string -> real, maxWidth: real, done: seq<seq<string>>, current: seq<string>)
    requires GreedyState(width, maxWidth, done, current)
    requires current != [] || done == []
    ensures Greedy(width, maxWidth, done + [current])
  {
    var d := done + [current];
    forall i | 0 <= i < |d| - 1 && d[i + 1] != []
      ensures !Fits(width, maxWidth, d[i] + [d[i + 1][0]])
    {
      if i + 1 < |done| {
        assert d[i] == done[i] && d[i + 1] == done[i + 1];
      }
    }
  }

  /** The loop keeps its lines greedy. */
  lemma {:induction false} WrapFromGreedy(width: string -> real, maxWidth: real, done: seq<seq<string>>, current: seq<string>, words: seq<string>)
    requires GreedyState(width, maxWidth, done, current)
    ensures Greedy(width, maxWidth, WrapFrom(width, maxWidth, done, current, words))
    decreases |words|
  {
    if words == [] {
      if current != [] {
        GreedyPush(width, maxWidth, done, current);
      }
    } else if Fits(width, maxWidth, current + [words[0]]) {
      assert current != [] ==> (current + [words[0]])[0] == current[0];
      WrapFromGreedy(width, maxWidth, done, current + [words[0]], words[1..]);
    } else {
      GreedyPush(width, maxWidth, done, current);
      var d := done + [current];
      assert d[|d| - 1] == current;
      WrapFromGreedy(width, maxWidth, d, [words[0]], words[1..]);
    }
  }

  /** No word is lost, added or moved: the lines hold the finished lines, the current line and the rest. */
  lemma {:induction false} WrapFromFlatten(width: string -> real, maxWidth: real, done: seq<seq<string>>, current: seq<string>, words: seq<string>)
    ensures Flatten(WrapFrom(width, maxWidth, done, current, words)) == Flatten(done) + current + words
    decreases |words|
  {
    if words == [] {
      if current != [] {
        FlattenAppend(done, [current]);
        assert Flatten([current]) == current + Flatten([]);
      }
    } else if Fits(width, maxWidth, current + [words[0]]) {
      WrapFromFlatten(width, maxWidth, done, current + [words[0]], words[1..]);
      assert current + [words[0]] + words[1..] == current + words;
    } else {
      WrapFromFlatten(width, maxWidth, done + [current], [words[0]], words[1..]);
      FlattenAppend(done, [current]);
      assert Flatten([current]) == current + Flatten([]);
      assert [words[0]] + words[1..] == words;
    }
  }

  /** The finished lines are kept, in front. */
  lemma {:induction false} WrapFromPrefix(width: string -> real, maxWidth: real, done: seq<seq<string>>, current: seq<string>, words: seq<string>)
    ensures done <= WrapFrom(width, maxWidth, done, current, words)
    decreases |words|
  {
    if words != [] {
      if Fits(width, maxWidth, current + [words[0]]) {
        WrapFromPrefix(width, maxWidth, done, current + [words[0]], words[1..]);
      } else {
        WrapFromPrefix(width, maxWidth, done + [current], [words[0]], words[1..]);
      }
    }
  }

  predicate NoEmpty(groups: seq<seq<string>>)
  {
    forall i :: 0 <= i < |groups| ==> groups[i] != []
  }

  /** Once the current line holds a word, no empty line is produced. */
  lemma {:induction false} WrapFromNoEmpty(width: string -> real, maxWidth: real, done: seq<seq<string>>, current: seq<string>, words: seq<string>)
    requires NoEmpty(done) && current != []
    ensures NoEmpty(WrapFrom(width, maxWidth, done, current, words))
    decreases |words|
  {
    if words != [] {
      if Fits(width, maxWidth, current + [words[0]]) {
        WrapFromNoEmpty(width, maxWidth, done, current + [words[0]], words[1..]);
      } else {
        WrapFromNoEmpty(width, maxWidth, done + [current], [words[0]], words[1..]);
      }
    }
  }

  predicate AllGroupsWords(groups: seq<seq<string>>)
  {
    forall i :: 0 <= i < |groups| ==> AllWords(groups[i])
  }

  /** Lines cut from words hold only words. */
  lemma {:induction false} WrapFromWords(width: string -> real, maxWidth: real, done: seq<seq<string>>, current: seq<string>, words: seq<string>)
    requires AllGroupsWords(done) && AllWords(current) && AllWords(words)
    ensures AllGroupsWords(WrapFrom(width, maxWidth, done, current, words))
    decreases |words|
  {
    if words != [] {
      if Fits(width, maxWidth, current + [words[0]]) {
        WrapFromWords(width, maxWidth, done, current + [words[0]], words[1..]);
      } else {
        WrapFromWords(width, maxWidth, done + [current], [words[0]], words[1..]);
      }
    }
  }

  /**
   * The first line is empty exactly when there is a first word and it alone
   * is too wide: the source then emits the empty current line before it.
   */
  lemma EmptyFirstLine(width: string -> real, maxWidth: real, words: seq<string>)
    ensures var groups := WrapGroups(width, maxWidth, words);
            (|groups| > 0 && groups[0] == []) <==> (words != [] && width(words[0]) > maxWidth)
  {
    var groups := WrapGroups(width, maxWidth, words);
    if words != [] {
      var w := words[0];
      assert [] + [w] == [w];
      assert Join([w]) == w;
      if Fits(width, maxWidth, [w]) {
        WrapFromNoEmpty(width, maxWidth, [], [w], words[1..]);
        WrapFromFlatten(width, maxWidth, [], [w], words[1..]);
        assert groups != [];
      } else {
        var none: seq<seq<string>> := [];
        var empty: seq<string> := [];
        assert !Fits(width, maxWidth, empty + [w]);
        assert none + [empty] == [[]];
        assert groups == WrapFrom(width, maxWidth, none + [empty], [w], words[1..]);
        WrapFromPrefix(width, maxWidth, [[]], [w], words[1..]);
      }
    }
  }

  /** Joining a list of words is empty only for the empty list. */
  lemma JoinEmpty(ws: seq<string>)
    requires AllWords(ws)
    ensures Join(ws) == "" <==> ws == []
  {
    if |ws| >= 2 {
      assert |Join(ws)| >= |ws[0]|;
    }
  }

  /** Everything `WrapQuestion` promises about its lines, from the line groups. */
  lemma WrapLinesFacts(width: string -> real, maxWidth: real, words: seq<string>, lines: seq<string>)
    requires AllWords(words)
    requires lines == JoinEach(WrapGroups(width, maxWidth, words))
    ensures Flatten(SplitEach(lines)) == words
    ensures forall i :: 0 <= i < |lines| && |Split(lines[i])| >= 2 ==> width(lines[i]) <= maxWidth
    ensures forall i :: 0 <= i < |lines| && lines[i] == "" ==> i == 0
    ensures (|lines| > 0 && lines[0] == "") <==> (words != [] && width(words[0]) > maxWidth)
  {
    var groups := WrapGroups(width, maxWidth, words);
    WrapFromWords(width, maxWidth, [], [], words);
    WrapFromFlatten(width, maxWidth, [], [], words);
    WrapFromGreedy(width, maxWidth, [], [], words);
    EmptyFirstLine(width, maxWidth, words);
    forall i | 0 <= i < |lines|
      ensures Split(lines[i]) == groups[i]
      ensures lines[i] == "" <==> groups[i] == []
    {
      SplitJoin(groups[i]);
      JoinEmpty(groups[i]);
    }
    assert SplitEach(lines) == groups;
  }

  /** A word of one of the lists is a word of the flattened list. */
  lemma {:induction false} FlattenMember(wss: seq<seq<string>>, i: nat, k: nat)
    requires i < |wss| && k < |wss[i]|
    ensures wss[i][k] in Flatten(wss)
  {
    if i > 0 {
      FlattenMember(wss[1..], i - 1, k);
    }
  }

  /** When every word fits on a line by itself, no line is empty and every line fits. */
  lemma WrapLinesFit(width: string -> real, maxWidth: real, words: seq<string>, lines: seq<string>)
    requires AllWords(words)
    requires lines == JoinEach(WrapGroups(width, maxWidth, words))
    requires forall k :: 0 <= k < |words| ==> width(words[k]) <= maxWidth
    ensures forall i :: 0 <= i < |lines| ==> lines[i] != "" && width(lines[i]) <= maxWidth
  {
    var groups := WrapGroups(width, maxWidth, words);
    WrapLinesFacts(width, maxWidth, words, lines);
    WrapFromFlatten(width, maxWidth, [], [], words);
    assert Flatten(groups) == words;
    WrapFromWords(width, maxWidth, [], [], words);
    forall i | 0 <= i < |lines|
      ensures lines[i] != "" && width(lines[i]) <= maxWidth
    {
      SplitJoin(groups[i]);
      JoinEmpty(groups[i]);
      if |groups[i]| == 1 {
        FlattenMember(groups, i, 0);
        assert lines[i] == groups[i][0];
      }
    }
  }

  /** Text width grows with the text: a part is never wider than the whole. */
  ghost predicate Monotone(width: string -> real)
  {
    forall u: string, v: string :: width(u) <= width(u + v) && width(v) <= width(u + v)
  }

  /** No word of a joined line is wider than the line. */
  lemma {:induction false} JoinWidth(width: string -> real, ws: seq<string>, k: nat)
    requires Monotone(width) && k < |ws|
    ensures width(ws[k]) <= width(Join(ws))
  {
    if |ws| >= 2 {
      var rest := Join(ws[1..]);
      assert Join(ws) == ws[0] + (" " + rest) == (ws[0] + " ") + rest;
      assert width(ws[0]) <= width(ws[0] + (" " + rest));
      if k > 0 {
        JoinWidth(width, ws[1..], k - 1);
        assert width(rest) <= width((ws[0] + " ") + rest);
      }
    }
  }

  /**
   * For a width that grows with the text, as one that adds up glyph
   * advances does, a word too wide for the line stands alone on its line.
   */
  lemma OverwideWordAlone(width: string -> real, maxWidth: real, words: seq<string>)
    requires Monotone(width)
    ensures var groups := WrapGroups(width, maxWidth, words);
            forall i, k :: 0 <= i < |groups| && 0 <= k < |groups[i]| && width(groups[i][k]) > maxWidth ==>
              groups[i] == [groups[i][k]]
  {
    var groups := WrapGroups(width, maxWidth, words);
    WrapFromGreedy(width, maxWidth, [], [], words);
    forall i, k | 0 <= i < |groups| && 0 <= k < |groups[i]| && width(groups[i][k]) > maxWidth
      ensures groups[i] == [groups[i][k]]
    {
      JoinWidth(width, groups[i], k);
      assert |groups[i]| < 2;
    }
  }

  /** A word wider than the card is put alone on its line, after an empty first line: it is never split or checked. */
  lemma OverwideWordExample()
    ensures WrapGroups((s: string) => |s| as real, 3.0, ["abcdef", "ab"]) == [[], ["abcdef"], ["ab"]]
  {
    var width := (s: string) => |s| as real;
    assert Join([] + ["abcdef"]) == "abcdef";
    assert Join(["abcdef"] + ["ab"]) == "abcdef ab";
    assert Join([] + ["ab"]) == "ab";
  }
}
