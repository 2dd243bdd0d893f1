/**
 * The string operations the program relies on: Python's str.split() with no
 * argument, ' '.join(...) and str.strip(), on strings seen as sequences of
 * characters.
 */
module Text {

  /** The characters Python's str.isspace() accepts (and str.split() / str.strip() remove). */
  predicate IsSpace(c: char)
  {
    c == ' ' || ('\t' <= c <= '\r') || ('\U{1C}' <= c <= '\U{1F}')
    || c == '\U{85}' || c == '\U{A0}' || c == '\U{1680}'
    || ('\U{2000}' <= c <= '\U{200A}') || c == '\U{2028}' || c == '\U{2029}'
    || c == '\U{202F}' || c == '\U{205F}' || c == '\U{3000}'
  }

  /** A word: a non-empty run of non-whitespace characters. */
  predicate IsWord(w: string)
  {
    w != [] && forall i :: 0 <= i < |w| ==> !IsSpace(w[i])
  }

  predicate AllWords(ws: seq<string>)
  {
    forall i :: 0 <= i < |ws| ==> IsWord(ws[i])
  }

  /** The longest prefix of `s` that holds no whitespace. */
  function TakeWord(s: string): (w: string)
    ensures w <= s
    ensures forall i :: 0 <= i < |w| ==> !IsSpace(w[i])
    ensures |w| == |s| || IsSpace(s[|w|])
  {
    if s == [] || IsSpace(s[0]) then [] else [s[0]] + TakeWord(s[1..])
  }

  /** Python's `s.split()`: the maximal runs of non-whitespace characters, in order. */
  function Split(s: string): (ws: seq<string>)
    ensures AllWords(ws)
    decreases |s|
  {
    if s == [] then []
    else if IsSpace(s[0]) then Split(s[1..])
    else
      var w := TakeWord(s);
      [w] + Split(s[|w|..])
  }

  /** Python's `' '.join(ws)`. */
  function Join(ws: seq<string>): string
  {
    if ws == [] then ""
    else if |ws| == 1 then ws[0]
    else ws[0] + " " + Join(ws[1..])
  }

  /** The words of all the lists in `wss`, in order. */
  function Flatten(wss: seq<seq<string>>): seq<string>
  {
    if wss == [] then [] else wss[0] + Flatten(wss[1..])
  }

  lemma FlattenAppend(a: seq<seq<string>>, b: seq<seq<string>>)
    ensures Flatten(a + b) == Flatten(a) + Flatten(b)
  {
    if a != [] {
      calc {
        Flatten(a + b);
        (a + b)[0] + Flatten((a + b)[1..]);
        { assert (a + b)[0] == a[0] && (a + b)[1..] == a[1..] + b; }
        a[0] + Flatten(a[1..] + b);
        { FlattenAppend(a[1..], b); }
        a[0] + (Flatten(a[1..]) + Flatten(b));
        Flatten(a) + Flatten(b);
      }
    } else {
      assert a + b == b;
    }
  }

  lemma {:induction false} TakeWordOfWord(w: string, rest: string)
    requires forall i :: 0 <= i < |w| ==> !IsSpace(w[i])
    requires rest == [] || IsSpace(rest[0])
    ensures TakeWord(w + rest) == w
  {
    if w == [] {
      assert w + rest == rest;
    } else {
      assert (w + rest)[1..] == w[1..] + rest;
      TakeWordOfWord(w[1..], rest);
    }
  }

  lemma {:induction false} SplitWordThen(w: string, rest: string)
    requires IsWord(w)
    requires rest == [] || IsSpace(rest[0])
    ensures Split(w + rest) == [w] + Split(rest)
  {
    TakeWordOfWord(w, rest);
    assert (w + rest)[|w|..] == rest;
  }

  /** Splitting a space-joined list of words gives the words back. */
  lemma {:induction false} SplitJoin(ws: seq<string>)
    requires AllWords(ws)
    ensures Split(Join(ws)) == ws
  {
    if ws == [] {
    } else if |ws| == 1 {
      SplitWordThen(ws[0], "");
      assert ws[0] + "" == ws[0];
    } else {
      var rest := " " + Join(ws[1..]);
      assert Join(ws) == ws[0] + rest;
      SplitWordThen(ws[0], rest);
      assert rest[1..] == Join(ws[1..]);
      SplitJoin(ws[1..]);
      assert ws == [ws[0]] + ws[1..];
    }
  }

  /** `s` holds whitespace only. */
  predicate AllSpace(s: string)
  {
    forall i :: 0 <= i < |s| ==> IsSpace(s[i])
  }

  /**
   * `gaps[0] + ws[0] + gaps[1] + ws[1] + ... + ws[n - 1] + gaps[n]`: a string
   * seen as its words and the runs of characters between them.
   */
  function Weave(gaps: seq<string>, ws: seq<string>): string
    requires |gaps| == |ws| + 1
  {
    if ws == [] then gaps[0] else gaps[0] + ws[0] + Weave(gaps[1..], ws[1..])
  }

  /** `gaps` can separate `n` words: all whitespace, and non-empty between two words. */
  predicate Separators(gaps: seq<string>, n: nat)
  {
    && |gaps| == n + 1
    && (forall i :: 0 <= i < |gaps| ==> AllSpace(gaps[i]))
    && (forall i :: 0 < i < n ==> gaps[i] != [])
  }

  /** The whitespace runs around and between the words of `s`. */
  function Gaps(s: string): (gaps: seq<string>)
    ensures |gaps| == |Split(s)| + 1
    decreases |s|
  {
    if s == [] then [""]
    else if IsSpace(s[0]) then
      var g := Gaps(s[1..]);
      [[s[0]] + g[0]] + g[1..]
    else
      [""] + Gaps(s[|TakeWord(s)|..])
  }

  /** `Gaps(s)` and `Split(s)` are a decomposition of `s`. */
  predicate WovenBack(s: string)
  {
    && Separators(Gaps(s), |Split(s)|)
    && Weave(Gaps(s), Split(s)) == s
    && (s != [] && IsSpace(s[0]) ==> Gaps(s)[0] != [])
  }

  /** Every string is its words woven with the whitespace runs `Gaps` finds. */
  lemma {:induction false} SplitIsWeave(s: string)
    ensures WovenBack(s)
    decreases |s|
  {
    if s == [] {
    } else if IsSpace(s[0]) {
      SplitIsWeave(s[1..]);
      WovenBackSpace(s);
    } else {
      SplitIsWeave(s[|TakeWord(s)|..]);
      WovenBackWord(s);
    }
  }

  lemma WovenBackSpace(s: string)
    requires s != [] && IsSpace(s[0]) && WovenBack(s[1..])
    ensures WovenBack(s)
  {
    var g := Gaps(s[1..]);
    assert Gaps(s) == [[s[0]] + g[0]] + g[1..];
    assert Split(s) == Split(s[1..]);
    WeaveGrow([s[0]], g, Split(s[1..]));
    assert [s[0]] + s[1..] == s;
    SeparatorsGrow([s[0]], g, |Split(s[1..])|);
  }

  lemma WovenBackWord(s: string)
    requires s != [] && !IsSpace(s[0]) && WovenBack(s[|TakeWord(s)|..])
    ensures WovenBack(s)
  {
    var w := TakeWord(s);
    var t := s[|w|..];
    GapsOfWord(s);
    SeparatorsCons(Gaps(t), |Split(t)|);
    WeaveCons(w, Gaps(t), Split(t));
  }

  /** One unfolding of `Gaps` and `Split` at a word. */
  lemma GapsOfWord(s: string)
    requires s != [] && !IsSpace(s[0])
    ensures var w := TakeWord(s); var t := s[|w|..];
            && Gaps(s) == [""] + Gaps(t)
            && Split(s) == [w] + Split(t)
            && s == w + t
            && (t != [] ==> IsSpace(t[0]))
  {
    var w := TakeWord(s);
    var t := s[|w|..];
    assert w == s[..|w|];
    assert s == s[..|w|] + t;
    assert t != [] ==> t[0] == s[|w|];
  }

  lemma WeaveCons(w: string, g: seq<string>, ws: seq<string>)
    requires |g| == |ws| + 1
    ensures Weave([""] + g, [w] + ws) == w + Weave(g, ws)
  {
    var gs, vs := [""] + g, [w] + ws;
    assert gs[0] == "" && gs[1..] == g;
    assert vs[0] == w && vs[1..] == ws;
    assert Weave(gs, vs) == "" + w + Weave(g, ws);
    assert "" + w == w;
  }


  lemma SeparatorsGrow(p: string, g: seq<string>, n: nat)
    requires AllSpace(p) && p != [] && Separators(g, n)
    ensures var g' := [p + g[0]] + g[1..]; Separators(g', n) && g'[0] != []
  {
    var g' := [p + g[0]] + g[1..];
    assert forall i :: 0 < i < |g'| ==> g'[i] == g[i];
  }

  lemma SeparatorsCons(g: seq<string>, n: nat)
    requires Separators(g, n) && (n > 0 ==> g[0] != [])
    ensures Separators([""] + g, n + 1)
  {
    var g' := [""] + g;
    assert forall i :: 0 < i < |g'| ==> g'[i] == g[i - 1];
  }

  lemma WeaveGrow(p: string, gaps: seq<string>, ws: seq<string>)
    requires |gaps| == |ws| + 1
    ensures Weave([p + gaps[0]] + gaps[1..], ws) == p + Weave(gaps, ws)
  {
    var g := [p + gaps[0]] + gaps[1..];
    assert g[1..] == gaps[1..];
  }

  /** Leading whitespace does not change the words. */
  lemma {:induction false} SplitSkipSpace(g: string, t: string)
    requires AllSpace(g)
    ensures Split(g + t) == Split(t)
    decreases |g|
  {
    if g != [] {
      assert (g + t)[1..] == g[1..] + t;
      SplitSkipSpace(g[1..], t);
    } else {
      assert g + t == t;
    }
  }

  /**
   * `Split` has one result for each way of seeing a string as words between
   * whitespace runs: every such decomposition gives back its words, and
   * `Gaps` gives one for every string. So the words of `Split(s)` are the
   * maximal runs of non-whitespace characters of `s`, in order.
   */
  lemma {:induction false} WeaveSplit(gaps: seq<string>, ws: seq<string>)
    requires AllWords(ws) && Separators(gaps, |ws|)
    ensures Split(Weave(gaps, ws)) == ws
    decreases |ws|
  {
    if ws == [] {
      SplitSkipSpace(gaps[0], "");
      assert gaps[0] + "" == gaps[0];
    } else {
      var rest := Weave(gaps[1..], ws[1..]);
      assert AllSpace(gaps[1]);
      WeaveStep(gaps, ws);
      SplitSkipSpace(gaps[0], ws[0] + rest);
      SplitWordThen(ws[0], rest);
      SeparatorsTail(gaps, |ws|);
      WeaveSplit(gaps[1..], ws[1..]);
      assert ws == [ws[0]] + ws[1..];
    }
  }

  /** One unfolding of `Weave`: the rest after the first word starts with whitespace, if anything. */
  lemma WeaveStep(gaps: seq<string>, ws: seq<string>)
    requires ws != [] && |gaps| == |ws| + 1
    requires |ws| > 1 ==> gaps[1] != []
    requires gaps[1] == [] || IsSpace(gaps[1][0])
    ensures var rest := Weave(gaps[1..], ws[1..]);
            && Weave(gaps, ws) == gaps[0] + (ws[0] + rest)
            && (rest == [] || IsSpace(rest[0]))
  {
    var tail := gaps[1..];
    var rest := Weave(tail, ws[1..]);
    assert tail[0] == gaps[1];
    WeaveStart(tail, ws[1..]);
    if gaps[1] != [] {
      assert rest[0] == gaps[1][0];
    } else {
      assert ws[1..] == [];
    }
  }


  /** A woven string starts with its first gap. */
  lemma WeaveStart(gaps: seq<string>, ws: seq<string>)
    requires |gaps| == |ws| + 1
    ensures gaps[0] <= Weave(gaps, ws)
  {
  }

  lemma SeparatorsTail(gaps: seq<string>, n: nat)
    requires n > 0 && Separators(gaps, n)
    ensures Separators(gaps[1..], n - 1)
  {
    forall i | 0 < i < n - 1
      ensures gaps[1..][i] != []
    {
      assert gaps[1..][i] == gaps[i + 1];
    }
  }

  /** The number of whitespace characters `s` starts with. */
  function LeadingSpace(s: string): (k: nat)
    ensures k <= |s|
    ensures forall i :: 0 <= i < k ==> IsSpace(s[i])
    ensures k == |s| || !IsSpace(s[k])
  {
    if s != [] && IsSpace(s[0]) then 1 + LeadingSpace(s[1..]) else 0
  }

  /** The number of whitespace characters `s` ends with. */
  function TrailingSpace(s: string): (k: nat)
    ensures k <= |s|
    ensures forall i :: |s| - k <= i < |s| ==> IsSpace(s[i])
    ensures k == |s| || !IsSpace(s[|s| - 1 - k])
  {
    if s != [] && IsSpace(s[|s| - 1]) then 1 + TrailingSpace(s[..|s| - 1]) else 0
  }

  /** Only whitespace lies before index `i` and from index `j` on. */
  predicate SpaceOutside(s: string, i: nat, j: nat)
    requires i <= j <= |s|
  {
    (forall k :: 0 <= k < i ==> IsSpace(s[k])) && (forall k :: j <= k < |s| ==> IsSpace(s[k]))
  }

  /** Python's `s.strip()`. */
  function Strip(s: string): (r: string)
    ensures r == [] || (!IsSpace(r[0]) && !IsSpace(r[|r| - 1]))
    ensures exists i: nat, j: nat :: i <= j <= |s| && r == s[i..j] && SpaceOutside(s, i, j)
  {
    var i := LeadingSpace(s);
    var n := TrailingSpace(s[i..]);
    StripBounds(s, i, n);
    s[i..|s| - n]
  }

  lemma StripBounds(s: string, i: nat, n: nat)
    requires i == LeadingSpace(s) && n == TrailingSpace(s[i..])
    ensures i <= |s| - n <= |s|
    ensures SpaceOutside(s, i, |s| - n)
    ensures var r := s[i..|s| - n]; r == [] || (!IsSpace(r[0]) && !IsSpace(r[|r| - 1]))
  {
    var t := s[i..];
    forall k | |s| - n <= k < |s|
      ensures IsSpace(s[k])
    {
      assert s[k] == t[k - i];
    }
    if i < |s| - n {
      assert s[|s| - n - 1] == t[|t| - 1 - n];
    }
  }
}
