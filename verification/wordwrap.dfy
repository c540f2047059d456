/**
 * The greedy word-wrap of product names.  `Wrap` is the loop as the
 * renderer runs it, on strings; `Pack` is the same loop on lists of words,
 * and `GreedyPacking` states declaratively what a packing of the words
 * into lines under a budget is.
 */
module WordWrap {
  import opened Text

  /**
   * The loop of the name wrapper: `current` is the line being filled and
   * `lines` the lines already emitted.  A word joins the current line when
   * `len(current) + len(word) + 1 <= budget`; the `+ 1` is charged even
   * when the current line is still empty.
   */
  function WrapLoop(words: seq<string>, budget: nat, current: string, lines: seq<string>): seq<string>
    decreases |words|
  {
    if |words| == 0 then
      if current != "" then lines + [current] else lines
    else
      var w := words[0];
      if |current| + |w| + 1 <= budget then
        WrapLoop(words[1..], budget, (if current != "" then current + " " else current) + w, lines)
      else
        WrapLoop(words[1..], budget, w, lines + [current])
  }

  /** The name lines of `words` under `budget` columns. */
  function Wrap(words: seq<string>, budget: nat): seq<string> {
    WrapLoop(words, budget, "", [])
  }

  /** The same loop over groups of words instead of joined strings. */
  function PackLoop(words: seq<string>, budget: nat, group: seq<string>, groups: seq<seq<string>>): seq<seq<string>>
    decreases |words|
  {
    if |words| == 0 then
      if group != [] then groups + [group] else groups
    else
      var w := words[0];
      if |Join(" ", group)| + |w| + 1 <= budget then
        PackLoop(words[1..], budget, group + [w], groups)
      else
        PackLoop(words[1..], budget, [w], groups + [group])
  }

  function Pack(words: seq<string>, budget: nat): seq<seq<string>> {
    PackLoop(words, budget, [], [])
  }

  // ---------------------------------------------------------------------
  // What a greedy packing is

  /** Only the first line can be empty, and only when another line follows. */
  predicate EmptyOnlyFirst(gs: seq<seq<string>>) {
    && (forall i :: 0 < i < |gs| ==> |gs[i]| > 0)
    && (|gs| > 0 && gs[0] == [] ==> |gs| > 1)
  }

  /** A line holding two or more words fits the budget. */
  predicate MultiWordLinesFit(gs: seq<seq<string>>, budget: nat) {
    forall i :: 0 <= i < |gs| && |gs[i]| >= 2 ==> |Join(" ", gs[i])| <= budget
  }

  /** A non-empty first line was started on the empty line, so the `+ 1` was charged for its first word. */
  predicate FirstWordCharged(gs: seq<seq<string>>, budget: nat) {
    |gs| > 0 && gs[0] != [] ==> |gs[0][0]| + 1 <= budget
  }

  /** Each line break happened because the next word did not fit. */
  predicate BreaksForced(gs: seq<seq<string>>, budget: nat) {
    forall i :: 0 <= i < |gs| - 1 && gs[i + 1] != [] ==> |Join(" ", gs[i])| + |gs[i + 1][0]| + 1 > budget
  }

  predicate GreedyLines(gs: seq<seq<string>>, budget: nat) {
    && EmptyOnlyFirst(gs)
    && MultiWordLinesFit(gs, budget)
    && FirstWordCharged(gs, budget)
    && BreaksForced(gs, budget)
  }

  /** `gs` is the greedy packing of `words` under `budget`. */
  predicate GreedyPacking(gs: seq<seq<string>>, words: seq<string>, budget: nat) {
    Flatten(gs) == words && GreedyLines(gs, budget)
  }

  // ---------------------------------------------------------------------
  // Pack produces the greedy packing

  lemma FlattenSnoc(gs: seq<seq<string>>, g: seq<string>)
    ensures Flatten(gs + [g]) == Flatten(gs) + g
    decreases |gs|
  {
    if |gs| == 0 {
      assert gs + [g] == [g];
      assert Flatten([g]) == g + Flatten([g][1..]);
    } else {
      assert (gs + [g])[1..] == gs[1..] + [g];
      FlattenSnoc(gs[1..], g);
    }
  }

  /** The state of the packing loop: the emitted lines plus the open one. */
  predicate LoopState(groups: seq<seq<string>>, group: seq<string>, budget: nat) {
    && (group == [] ==> groups == [])
    && (forall i :: 0 < i < |groups| ==> |groups[i]| > 0)
    && (|groups| > 0 ==> group != [])
    && MultiWordLinesFit(groups + [group], budget)
    && FirstWordCharged(groups + [group], budget)
    && BreaksForced(groups + [group], budget)
  }

  lemma JoinSnoc(g: seq<string>, w: string)
    ensures |g| > 0 ==> Join(" ", g + [w]) == Join(" ", g) + " " + w
    ensures |g| == 0 ==> Join(" ", g + [w]) == w
  {
    if |g| > 0 {
      assert (g + [w])[..|g|] == g;
    } else {
      assert g + [w] == [w];
    }
  }

  lemma LoopStateJoin(groups: seq<seq<string>>, group: seq<string>, w: string, budget: nat)
    requires LoopState(groups, group, budget)
    requires |Join(" ", group)| + |w| + 1 <= budget
    ensures LoopState(groups, group + [w], budget)
  {
    JoinSnoc(group, w);
    var before := groups + [group];
    var after := groups + [group + [w]];
    assert forall i :: 0 <= i < |groups| ==> after[i] == before[i];
    forall i | 0 <= i < |after| - 1 && after[i + 1] != []
      ensures |Join(" ", after[i])| + |after[i + 1][0]| + 1 > budget
    {
      assert before[i + 1] != [] && after[i + 1][0] == before[i + 1][0];
    }
  }

  lemma LoopStateBreak(groups: seq<seq<string>>, group: seq<string>, w: string, budget: nat)
    requires LoopState(groups, group, budget)
    requires |Join(" ", group)| + |w| + 1 > budget
    ensures LoopState(groups + [group], [w], budget)
  {
    var before := groups + [group];
    var after := groups + [group] + [[w]];
    assert forall i :: 0 <= i < |before| ==> after[i] == before[i];
    if group == [] {
      assert groups == [];
      assert after == [[], [w]];
    }
  }

  /** What the loop emits once the words run out. */
  lemma LoopDone(groups: seq<seq<string>>, group: seq<string>, budget: nat)
    requires LoopState(groups, group, budget)
    ensures GreedyLines(if group != [] then groups + [group] else groups, budget)
  {
    if group == [] {
      assert groups == [];
    }
  }

  lemma {:induction false} PackLoopLines(words: seq<string>, budget: nat, group: seq<string>, groups: seq<seq<string>>)
    requires LoopState(groups, group, budget)
    ensures GreedyLines(PackLoop(words, budget, group, groups), budget)
    decreases |words|
  {
    if |words| == 0 {
      LoopDone(groups, group, budget);
    } else {
      var w := words[0];
      if |Join(" ", group)| + |w| + 1 <= budget {
        LoopStateJoin(groups, group, w, budget);
        PackLoopLines(words[1..], budget, group + [w], groups);
      } else {
        LoopStateBreak(groups, group, w, budget);
        PackLoopLines(words[1..], budget, [w], groups + [group]);
      }
    }
  }

  lemma {:induction false} PackLoopWords(words: seq<string>, budget: nat, group: seq<string>, groups: seq<seq<string>>)
    ensures Flatten(PackLoop(words, budget, group, groups)) == Flatten(groups + [group]) + words
    decreases |words|
  {
    if |words| == 0 {
      FlattenSnoc(groups, group);
    } else {
      var w := words[0];
      var rest := words[1..];
      assert words == [w] + rest;
      if |Join(" ", group)| + |w| + 1 <= budget {
        PackLoopWords(rest, budget, group + [w], groups);
        FlattenSnoc(groups, group + [w]);
        FlattenSnoc(groups, group);
      } else {
        PackLoopWords(rest, budget, [w], groups + [group]);
        FlattenSnoc(groups + [group], [w]);
      }
    }
  }

  lemma PackLoopGreedy(words: seq<string>, budget: nat, group: seq<string>, groups: seq<seq<string>>)
    requires LoopState(groups, group, budget)
    ensures GreedyLines(PackLoop(words, budget, group, groups), budget)
    ensures Flatten(PackLoop(words, budget, group, groups)) == Flatten(groups + [group]) + words
  {
    PackLoopLines(words, budget, group, groups);
    PackLoopWords(words, budget, group, groups);
  }

  /** The packing loop meets the declarative description. */
  lemma PackIsGreedy(words: seq<string>, budget: nat)
    ensures GreedyPacking(Pack(words, budget), words, budget)
  {
    var e: seq<seq<string>> := [[]];
    assert Flatten(e) == [] + Flatten(e[1..]);
    assert [] + e == e;
    PackLoopGreedy(words, budget, [], []);
  }

  // ---------------------------------------------------------------------
  // There is only one greedy packing

  /** Lines after a break: all non-empty, multi-word ones fit, every break forced. */
  predicate GreedyTail(gs: seq<seq<string>>, budget: nat) {
    && (forall i :: 0 <= i < |gs| ==> |gs[i]| > 0)
    && MultiWordLinesFit(gs, budget)
    && BreaksForced(gs, budget)
  }

  lemma GreedyTailRest(gs: seq<seq<string>>, budget: nat)
    requires |gs| > 0 && GreedyTail(gs, budget)
    ensures GreedyTail(gs[1..], budget)
  {
    var t := gs[1..];
    assert forall i :: 0 <= i < |t| ==> t[i] == gs[i + 1];
  }

  /** A proper prefix of a line, plus the next word and its space, is no longer than the line. */
  lemma {:induction false} JoinPrefixLength(g: seq<string>, k: nat)
    requires 0 < k < |g|
    ensures |Join(" ", g[..k])| + 1 + |g[k]| <= |Join(" ", g)|
    decreases |g|
  {
    var init := g[..|g| - 1];
    assert g == init + [g[|g| - 1]];
    JoinSnoc(init, g[|g| - 1]);
    if k < |g| - 1 {
      assert init[..k] == g[..k] && init[k] == g[k];
      JoinPrefixLength(init, k);
    } else {
      assert g[..k] == init;
    }
  }

  /** A greedy tail is empty exactly when it holds no words. */
  lemma GreedyTailEmpty(gs: seq<seq<string>>, budget: nat)
    requires GreedyTail(gs, budget)
    ensures |gs| > 0 <==> |Flatten(gs)| > 0
  {
    if |gs| > 0 {
      assert Flatten(gs) == gs[0] + Flatten(gs[1..]);
    }
  }

  /** The first line of a greedy tail cannot be a proper prefix of another greedy tail's first line. */
  lemma FirstLineNotShorter(gs: seq<seq<string>>, hs: seq<seq<string>>, budget: nat)
    requires GreedyTail(gs, budget) && GreedyTail(hs, budget)
    requires |gs| > 0 && |hs| > 0 && Flatten(gs) == Flatten(hs)
    ensures |gs[0]| >= |hs[0]|
  {
    var k := |gs[0]|;
    var f := Flatten(gs);
    assert f == gs[0] + Flatten(gs[1..]);
    assert f == hs[0] + Flatten(hs[1..]);
    if k < |hs[0]| {
      assert gs[0] == f[..k] == hs[0][..k];
      assert |Flatten(gs[1..])| > 0;
      assert |gs| > 1;
      assert Flatten(gs[1..]) == gs[1] + Flatten(gs[2..]) by {
        assert gs[1..][1..] == gs[2..];
      }
      assert gs[1][0] == f[k] == hs[0][k];
      JoinPrefixLength(hs[0], k);
      assert false;
    }
  }

  lemma {:induction false} GreedyTailUnique(gs: seq<seq<string>>, hs: seq<seq<string>>, budget: nat)
    requires GreedyTail(gs, budget) && GreedyTail(hs, budget)
    requires Flatten(gs) == Flatten(hs)
    ensures gs == hs
    decreases |gs|
  {
    GreedyTailEmpty(gs, budget);
    GreedyTailEmpty(hs, budget);
    if |gs| > 0 {
      FirstLineNotShorter(gs, hs, budget);
      FirstLineNotShorter(hs, gs, budget);
      var f := Flatten(gs);
      assert f == gs[0] + Flatten(gs[1..]);
      assert f == hs[0] + Flatten(hs[1..]);
      assert gs[0] == f[..|gs[0]|] == hs[0];
      assert Flatten(gs[1..]) == f[|gs[0]|..] == Flatten(hs[1..]);
      GreedyTailRest(gs, budget);
      GreedyTailRest(hs, budget);
      GreedyTailUnique(gs[1..], hs[1..], budget);
      assert gs == [gs[0]] + gs[1..];
      assert hs == [hs[0]] + hs[1..];
    }
  }

  /** There is only one greedy packing of given words under a given budget. */
  lemma GreedyPackingUnique(gs: seq<seq<string>>, hs: seq<seq<string>>, words: seq<string>, budget: nat)
    requires GreedyPacking(gs, words, budget) && GreedyPacking(hs, words, budget)
    ensures gs == hs
  {
    GreedyFirstLine(gs, words, budget);
    GreedyFirstLine(hs, words, budget);
    if |words| == 0 {
    } else if gs[0] == [] {
      assert Flatten(gs) == Flatten(gs[1..]);
      assert Flatten(hs) == Flatten(hs[1..]);
      GreedyTailOfRest(gs, budget);
      GreedyTailOfRest(hs, budget);
      GreedyTailUnique(gs[1..], hs[1..], budget);
      assert gs == [gs[0]] + gs[1..];
      assert hs == [hs[0]] + hs[1..];
    } else {
      GreedyTailUnique(gs, hs, budget);
    }
  }

  lemma GreedyTailOfRest(gs: seq<seq<string>>, budget: nat)
    requires |gs| > 0 && GreedyLines(gs, budget)
    ensures GreedyTail(gs[1..], budget)
  {
    var t := gs[1..];
    assert forall i :: 0 <= i < |t| ==> t[i] == gs[i + 1];
  }

  /** `Pack` is the greedy packing: any packing meeting the description is it. */
  lemma PackIsTheGreedyPacking(gs: seq<seq<string>>, words: seq<string>, budget: nat)
    requires GreedyPacking(gs, words, budget)
    ensures gs == Pack(words, budget)
  {
    PackIsGreedy(words, budget);
    GreedyPackingUnique(gs, Pack(words, budget), words, budget);
  }

  // ---------------------------------------------------------------------
  // Wrap is Pack with each line joined

  predicate AllWords(ws: seq<string>) {
    forall i :: 0 <= i < |ws| ==> IsWord(ws[i])
  }

  lemma {:induction false} JoinWordsEmpty(g: seq<string>)
    requires AllWords(g)
    ensures Join(" ", g) == "" <==> g == []
    decreases |g|
  {
    if |g| > 1 {
      assert |Join(" ", g)| >= |g[|g| - 1]| > 0;
    }
  }

  lemma {:induction false} WrapLoopPack(words: seq<string>, budget: nat, group: seq<string>, groups: seq<seq<string>>)
    requires AllWords(words) && AllWords(group)
    ensures WrapLoop(words, budget, Join(" ", group), JoinEach(" ", groups))
            == JoinEach(" ", PackLoop(words, budget, group, groups))
    decreases |words|
  {
    JoinWordsEmpty(group);
    if |words| == 0 {
      if group != [] {
        assert JoinEach(" ", groups) + [Join(" ", group)] == JoinEach(" ", groups + [group]);
      }
    } else {
      var w := words[0];
      JoinSnoc(group, w);
      assert AllWords(group + [w]);
      if |Join(" ", group)| + |w| + 1 <= budget {
        var current := Join(" ", group);
        assert (if current != "" then current + " " else current) + w == Join(" ", group + [w]);
        WrapLoopPack(words[1..], budget, group + [w], groups);
      } else {
        assert Join(" ", [w]) == w;
        assert JoinEach(" ", groups) + [Join(" ", group)] == JoinEach(" ", groups + [group]);
        WrapLoopPack(words[1..], budget, [w], groups + [group]);
      }
    }
  }

  /** The name lines are the greedy packing of the words, each joined by single spaces. */
  lemma WrapIsJoinedPack(words: seq<string>, budget: nat)
    requires AllWords(words)
    ensures Wrap(words, budget) == JoinEach(" ", Pack(words, budget))
  {
    assert Join(" ", []) == "";
    assert JoinEach(" ", []) == [];
    WrapLoopPack(words, budget, [], []);
  }

  // ---------------------------------------------------------------------
  // Consequences for the name lines

  lemma {:induction false} FlattenAllWords(gs: seq<seq<string>>)
    requires AllWords(Flatten(gs))
    ensures forall i :: 0 <= i < |gs| ==> AllWords(gs[i])
    decreases |gs|
  {
    if |gs| > 0 {
      var f := Flatten(gs);
      assert f == gs[0] + Flatten(gs[1..]);
      assert forall j :: 0 <= j < |gs[0]| ==> f[j] == gs[0][j];
      assert forall j :: 0 <= j < |Flatten(gs[1..])| ==> f[|gs[0]| + j] == Flatten(gs[1..])[j];
      FlattenAllWords(gs[1..]);
      assert forall i :: 1 <= i < |gs| ==> gs[i] == gs[1..][i - 1];
    }
  }

  /** The words found on each line, in order (`line.split()` for each line). */
  function WordsEach(lines: seq<string>): (r: seq<seq<string>>)
    ensures |r| == |lines|
    ensures forall i :: 0 <= i < |lines| ==> r[i] == Words(lines[i])
  {
    seq(|lines|, i requires 0 <= i < |lines| => Words(lines[i]))
  }

  /** The first line of a greedy packing of some words starts with the first word or is empty before it. */
  lemma GreedyFirstLine(gs: seq<seq<string>>, words: seq<string>, budget: nat)
    requires GreedyPacking(gs, words, budget)
    ensures |gs| > 0 <==> |words| > 0
    ensures |words| > 0 ==> (gs[0] == [] <==> |words[0]| + 1 > budget)
  {
    if |gs| > 0 {
      assert Flatten(gs) == gs[0] + Flatten(gs[1..]);
      if gs[0] == [] {
        assert |gs| > 1 && gs[1] != [];
        assert Flatten(gs[1..]) == gs[1] + Flatten(gs[2..]);
        assert words[0] == gs[1][0];
        assert Join(" ", gs[0]) == "";
      } else {
        assert words[0] == gs[0][0];
      }
    }
  }

  /**
   * The name lines of a product: together they hold exactly the name's
   * words in order, none split; a line with several words fits the budget;
   * every break was forced by a word that did not fit; and the first line is
   * empty exactly when the first word alone, plus the charged space, exceeds
   * the budget.
   */
  lemma WrapFacts(words: seq<string>, budget: nat)
    requires AllWords(words)
    ensures var lines := Wrap(words, budget);
            && Flatten(WordsEach(lines)) == words
            && (|lines| > 0 <==> |words| > 0)
            && (|words| > 0 ==> (lines[0] == "" <==> |words[0]| + 1 > budget))
            && (forall i :: 0 < i < |lines| ==> lines[i] != "")
            && (forall i :: 0 <= i < |lines| ==> |lines[i]| <= budget || |Words(lines[i])| == 1)
            && (forall i :: 0 <= i < |lines| - 1 && Words(lines[i + 1]) != [] ==>
                  |lines[i]| + |Words(lines[i + 1])[0]| + 1 > budget)
  {
    var gs := Pack(words, budget);
    var lines := Wrap(words, budget);
    PackIsGreedy(words, budget);
    WrapIsJoinedPack(words, budget);
    FlattenAllWords(gs);
    forall i | 0 <= i < |gs|
      ensures Words(lines[i]) == gs[i]
      ensures lines[i] == "" <==> gs[i] == []
    {
      WordsOfJoin(gs[i]);
      JoinWordsEmpty(gs[i]);
    }
    assert WordsEach(lines) == gs;
    GreedyFirstLine(gs, words, budget);
    forall i | 0 <= i < |lines|
      ensures |lines[i]| <= budget || |Words(lines[i])| == 1
    {
      if |gs[i]| >= 2 {
        assert |lines[i]| == |Join(" ", gs[i])|;
      } else if |gs[i]| == 0 {
        assert lines[i] == "";
      }
    }
  }

  /**
   * Wrapping at 16 columns (a 32-column receipt): words join while they fit;
   * a first word of 16 characters is charged 17 and so opens with an empty
   * line; a word that does not fit starts a line of its own.
   */
  lemma WrapExamples()
    ensures Wrap(["Chocolate", "milk", "bar"], 16) == ["Chocolate milk", "bar"]
    ensures Wrap(["Fifteen-letters"], 16) == ["Fifteen-letters"]
    ensures Wrap(["Sixteen--letters", "x"], 16) == ["", "Sixteen--letters", "x"]
  {
    var ws := ["Chocolate", "milk", "bar"];
    assert ws[1..] == ["milk", "bar"] && ws[1..][1..] == ["bar"] && ws[1..][1..][1..] == [];
    assert "" + "Chocolate" == "Chocolate";
    assert "Chocolate" + " " + "milk" == "Chocolate milk";
    assert WrapLoop(ws, 16, "", []) == WrapLoop(["milk", "bar"], 16, "Chocolate", []);
    assert WrapLoop(["milk", "bar"], 16, "Chocolate", []) == WrapLoop(["bar"], 16, "Chocolate milk", []);
    assert WrapLoop(["bar"], 16, "Chocolate milk", []) == WrapLoop([], 16, "bar", ["Chocolate milk"]);
    var one := ["Fifteen-letters"];
    assert |one[0]| == 15 && one[1..] == [];
    assert "" + "Fifteen-letters" == "Fifteen-letters";
    assert WrapLoop(one, 16, "", []) == WrapLoop([], 16, "Fifteen-letters", []);
    var two := ["Sixteen--letters", "x"];
    assert |two[0]| == 16 && two[1..] == ["x"] && two[1..][1..] == [];
    assert WrapLoop(two, 16, "", []) == WrapLoop(["x"], 16, "Sixteen--letters", [""]);
    assert WrapLoop(["x"], 16, "Sixteen--letters", [""]) == WrapLoop([], 16, "x", ["", "Sixteen--letters"]);
  }
}
