/**
 * The pieces of Python's `str` the receipt renderer relies on, over
 * `seq<char>` so that lengths are code-point counts like Python's `len`.
 */
module Text {

  function Max(a: int, b: int): int {
    if a < b then b else a
  }

  function Min(a: int, b: int): int {
    if a < b then a else b
  }

  predicate AllChar(s: string, c: char) {
    forall i :: 0 <= i < |s| ==> s[i] == c
  }

  /** `c * n` */
  function Repeat(c: char, n: nat): (r: string)
    ensures |r| == n
    ensures AllChar(r, c)
  {
    if n == 0 then [] else Repeat(c, n - 1) + [c]
  }

  /** Two runs of the same character make one run. */
  lemma {:induction false} RepeatAdd(c: char, a: nat, b: nat)
    ensures Repeat(c, a) + Repeat(c, b) == Repeat(c, a + b)
    decreases b
  {
    if b > 0 {
      RepeatAdd(c, a, b - 1);
      assert Repeat(c, a) + Repeat(c, b) == (Repeat(c, a) + Repeat(c, b - 1)) + [c];
    } else {
      assert Repeat(c, a) + [] == Repeat(c, a);
    }
  }

  /** How many spaces `ljust` and `rjust` add: none when the text is already wide enough. */
  function PadLength(len: nat, width: int): nat {
    if len >= width then 0 else width - len
  }

  /** `s.ljust(width)`: pads on the right and never truncates. */
  function LJust(s: string, width: int): (r: string)
    ensures |r| == Max(|s|, width)
    ensures r[..|s|] == s
  {
    s + Repeat(' ', PadLength(|s|, width))
  }

  /** The padding `ljust` adds is spaces. */
  lemma LJustPads(s: string, width: int)
    ensures AllChar(LJust(s, width)[|s|..], ' ')
  {
    assert LJust(s, width)[|s|..] == Repeat(' ', PadLength(|s|, width));
  }

  /** `s.rjust(width)`: pads on the left and never truncates. */
  function RJust(s: string, width: int): (r: string)
    ensures |r| == Max(|s|, width)
    ensures r[|r| - |s|..] == s
  {
    Repeat(' ', PadLength(|s|, width)) + s
  }

  /** The padding `rjust` adds is spaces. */
  lemma RJustPads(s: string, width: int)
    ensures var r := RJust(s, width); AllChar(r[..|r| - |s|], ' ')
  {
    var r := RJust(s, width);
    assert r[..|r| - |s|] == Repeat(' ', PadLength(|s|, width));
  }

  /**
   * The left margin CPython's `str.center` picks: half the total margin,
   * plus one when both the margin and the width are odd.
   */
  function CenterLeft(len: nat, width: int): nat {
    if len >= width then 0
    else
      var marg := width - len;
      marg / 2 + (if marg % 2 == 1 && width % 2 == 1 then 1 else 0)
  }

  /** `s.center(width)` */
  function Center(s: string, width: int): (r: string)
    ensures |r| == Max(|s|, width)
    ensures CenterLeft(|s|, width) + |s| <= |r|
    ensures r[CenterLeft(|s|, width)..CenterLeft(|s|, width) + |s|] == s
    ensures AllChar(r[..CenterLeft(|s|, width)], ' ')
    ensures AllChar(r[CenterLeft(|s|, width) + |s|..], ' ')
    // the two margins differ by at most one; the left one is the larger
    // exactly when the margin and the width are both odd
    ensures var left := CenterLeft(|s|, width);
            var right := |r| - |s| - left;
            && (left == right || left == right + 1 || right == left + 1)
            && (left == right + 1 <==> |s| < width && (width - |s|) % 2 == 1 && width % 2 == 1)
  {
    if |s| >= width then s
    else
      var left := CenterLeft(|s|, width);
      Repeat(' ', left) + s + Repeat(' ', width - |s| - left)
  }

  /** `sep.join(parts)` */
  function Join(sep: string, parts: seq<string>): string {
    if |parts| == 0 then ""
    else if |parts| == 1 then parts[0]
    else Join(sep, parts[..|parts| - 1]) + sep + parts[|parts| - 1]
  }

  lemma {:induction false} JoinConcat(sep: string, a: seq<string>, b: seq<string>)
    requires |a| > 0 && |b| > 0
    ensures Join(sep, a + b) == Join(sep, a) + sep + Join(sep, b)
    decreases |b|
  {
    var ab := a + b;
    if |b| == 1 {
      assert ab[..|ab| - 1] == a;
    } else {
      var b' := b[..|b| - 1];
      assert ab[..|ab| - 1] == a + b';
      JoinConcat(sep, a, b');
    }
  }

  lemma JoinCons(sep: string, x: string, rest: seq<string>)
    requires |rest| > 0
    ensures Join(sep, [x] + rest) == x + sep + Join(sep, rest)
  {
    JoinConcat(sep, [x], rest);
  }

  function Flatten<T>(xss: seq<seq<T>>): seq<T> {
    if |xss| == 0 then [] else xss[0] + Flatten(xss[1..])
  }

  /** `[sep.join(xs) for xs in xss]` */
  function JoinEach(sep: string, xss: seq<seq<string>>): (r: seq<string>)
    ensures |r| == |xss|
    ensures forall i :: 0 <= i < |xss| ==> r[i] == Join(sep, xss[i])
  {
    seq(|xss|, i requires 0 <= i < |xss| => Join(sep, xss[i]))
  }

  /**
   * Joining blocks that were each joined with the same separator is the
   * same as joining all their lines at once, as long as no block is empty.
   */
  lemma {:induction false} JoinJoined(sep: string, xss: seq<seq<string>>)
    requires forall i :: 0 <= i < |xss| ==> |xss[i]| > 0
    ensures Join(sep, JoinEach(sep, xss)) == Join(sep, Flatten(xss))
    decreases |xss|
  {
    if |xss| == 0 {
    } else if |xss| == 1 {
      assert Flatten(xss) == xss[0] + Flatten(xss[1..]);
      assert Flatten(xss) == xss[0];
    } else {
      var tail := xss[1..];
      JoinJoined(sep, tail);
      assert JoinEach(sep, xss) == [Join(sep, xss[0])] + JoinEach(sep, tail);
      JoinCons(sep, Join(sep, xss[0]), JoinEach(sep, tail));
      assert |Flatten(tail)| > 0 by {
        assert Flatten(tail) == tail[0] + Flatten(tail[1..]);
      }
      JoinConcat(sep, xss[0], Flatten(tail));
    }
  }

  /** The characters `str.split()` separates on (CPython's whitespace test). */
  predicate IsSpace(c: char) {
    || c == ' '
    || ('\t' <= c <= '\r')
    || ('\U{1c}' <= c <= '\U{1f}')
    || c == '\U{85}'
    || c == '\U{a0}'
    || c == '\U{1680}'
    || ('\U{2000}' <= c <= '\U{200a}')
    || c == '\U{2028}'
    || c == '\U{2029}'
    || c == '\U{202f}'
    || c == '\U{205f}'
    || c == '\U{3000}'
  }

  predicate IsWord(w: string) {
    |w| > 0 && forall i :: 0 <= i < |w| ==> !IsSpace(w[i])
  }

  /** Length of the run of non-whitespace characters that starts `s`. */
  function WordLen(s: string): (n: nat)
    ensures n <= |s|
    ensures forall i :: 0 <= i < n ==> !IsSpace(s[i])
    ensures n < |s| ==> IsSpace(s[n])
  {
    if s == [] || IsSpace(s[0]) then 0 else 1 + WordLen(s[1..])
  }

  /** `s.split()`: the maximal whitespace-free runs of `s`, in order. */
  function Words(s: string): (ws: seq<string>)
    ensures forall i :: 0 <= i < |ws| ==> IsWord(ws[i])
    decreases |s|
  {
    if s == [] then []
    else if IsSpace(s[0]) then Words(s[1..])
    else
      var n := WordLen(s);
      [s[..n]] + Words(s[n..])
  }

  /** A string splits into no words exactly when it is all whitespace. */
  lemma {:induction false} WordsEmptyIff(s: string)
    ensures Words(s) == [] <==> forall i :: 0 <= i < |s| ==> IsSpace(s[i])
    decreases |s|
  {
    if s != [] && IsSpace(s[0]) {
      WordsEmptyIff(s[1..]);
      assert forall i :: 1 <= i < |s| ==> s[i] == s[1..][i - 1];
    }
  }

  lemma WordsAfterWord(w: string, s: string)
    requires IsWord(w)
    requires s == [] || IsSpace(s[0])
    ensures Words(w + s) == [w] + Words(s)
  {
    var ws := w + s;
    assert forall i :: 0 <= i < |w| ==> ws[i] == w[i];
    assert |s| > 0 ==> ws[|w|] == s[0];
    assert WordLen(ws) == |w|;
    assert ws[..|w|] == w && ws[|w|..] == s;
  }

  /** A lone word splits into itself. */
  lemma WordsOfWord(w: string)
    requires IsWord(w)
    ensures Words(w) == [w]
  {
    WordsAfterWord(w, "");
    assert w + "" == w;
  }

  /** The run of non-whitespace at the front of `a` is unchanged by what follows a space. */
  lemma WordLenBeforeSpace(a: string, t: string)
    requires |t| > 0 && IsSpace(t[0])
    ensures WordLen(a + t) == WordLen(a)
  {
    var n, m := WordLen(a + t), WordLen(a);
    if m < |a| {
      assert (a + t)[m] == a[m];
    } else {
      assert (a + t)[m] == t[0];
    }
  }

  /**
   * `split()` cuts at every whitespace character: the words on either side
   * of one are the words of each side.  With `WordsOfWord` and
   * `Words("") == []` this pins down `split()` completely.
   */
  lemma {:induction false} WordsAtSpace(a: string, c: char, b: string)
    requires IsSpace(c)
    ensures Words(a + [c] + b) == Words(a) + Words(b)
    decreases |a|
  {
    var t := [c] + b;
    assert a + [c] + b == a + t;
    if a == [] {
      assert a + t == t && t[1..] == b;
    } else if IsSpace(a[0]) {
      assert (a + t)[0] == a[0] && (a + t)[1..] == a[1..] + t;
      WordsAtSpace(a[1..], c, b);
      assert a[1..] + [c] + b == a[1..] + t;
    } else {
      var n := WordLen(a);
      WordLenBeforeSpace(a, t);
      assert (a + t)[0] == a[0];
      assert (a + t)[..n] == a[..n];
      assert (a + t)[n..] == a[n..] + t;
      if n < |a| {
        WordsAtSpace(a[n..], c, b);
        assert a[n..] + [c] + b == a[n..] + t;
      } else {
        assert a[n..] == [] && t[1..] == b;
        assert a[n..] + t == t;
      }
    }
  }

  /** `" ".join` undone by `split()`: the words come back unchanged. */
  lemma {:induction false} WordsOfJoin(ws: seq<string>)
    requires forall i :: 0 <= i < |ws| ==> IsWord(ws[i])
    ensures Words(Join(" ", ws)) == ws
    decreases |ws|
  {
    if |ws| == 0 {
    } else if |ws| == 1 {
      WordsAfterWord(ws[0], "");
      assert ws[0] + "" == ws[0];
    } else {
      var rest := ws[1..];
      assert ws == [ws[0]] + rest;
      JoinCons(" ", ws[0], rest);
      var j := Join(" ", rest);
      WordsOfJoin(rest);
      assert ws[0] + " " + j == ws[0] + (" " + j);
      WordsAfterWord(ws[0], " " + j);
      assert (" " + j)[1..] == j;
    }
  }

  /** `s.split(c)` for a one-character separator; never empty. */
  function SplitOn(s: string, c: char): (r: seq<string>)
    ensures |r| >= 1
  {
    if s == [] then [""]
    else
      var rest := SplitOn(s[1..], c);
      if s[0] == c then [""] + rest else [[s[0]] + rest[0]] + rest[1..]
  }

  lemma {:induction false} SplitOnPrefix(a: string, t: string, c: char)
    requires c !in a
    ensures SplitOn(a + t, c) == [a + SplitOn(t, c)[0]] + SplitOn(t, c)[1..]
    decreases |a|
  {
    if a == [] {
      var r := SplitOn(t, c);
      assert a + t == t && a + r[0] == r[0];
      assert [r[0]] + r[1..] == r;
    } else {
      assert (a + t)[0] == a[0];
      assert (a + t)[1..] == a[1..] + t;
      SplitOnPrefix(a[1..], t, c);
      assert [a[0]] + (a[1..] + SplitOn(t, c)[0]) == a + SplitOn(t, c)[0];
    }
  }

  /** `s.split(c)` undoes `c.join(parts)` when no part contains `c`. */
  lemma {:induction false} SplitOnJoin(parts: seq<string>, c: char)
    requires |parts| > 0
    requires forall i :: 0 <= i < |parts| ==> c !in parts[i]
    ensures SplitOn(Join([c], parts), c) == parts
    decreases |parts|
  {
    if |parts| == 1 {
      SplitOnPrefix(parts[0], "", c);
      assert parts[0] + "" == parts[0];
    } else {
      var rest := parts[1..];
      assert parts == [parts[0]] + rest;
      JoinCons([c], parts[0], rest);
      var j := Join([c], rest);
      SplitOnJoin(rest, c);
      assert parts[0] + [c] + j == parts[0] + ([c] + j);
      SplitOnPrefix(parts[0], [c] + j, c);
      assert ([c] + j)[0] == c && ([c] + j)[1..] == j;
      assert SplitOn([c] + j, c) == [""] + SplitOn(j, c);
      assert parts[0] + "" == parts[0];
    }
  }

  /** Every occurrence of `a` replaced by `b` (`s.replace(a, b)`). */
  function Replace(s: string, a: char, b: char): (r: string)
    ensures |r| == |s|
    ensures forall i :: 0 <= i < |s| ==> r[i] == (if s[i] == a then b else s[i])
  {
    seq(|s|, i requires 0 <= i < |s| => if s[i] == a then b else s[i])
  }

  lemma ReplaceConcat(s: string, t: string, a: char, b: char)
    ensures Replace(s + t, a, b) == Replace(s, a, b) + Replace(t, a, b)
  {
  }

  lemma ReplaceAbsent(s: string, a: char, b: char)
    requires a !in s
    ensures Replace(s, a, b) == s
  {
  }

  /** A character absent from a string is absent from both halves of any split. */
  lemma NotInSplit(s: string, k: nat, c: char)
    requires k <= |s| && c !in s
    ensures c !in s[..k] && c !in s[k..]
  {
    assert forall i :: 0 <= i < k ==> s[..k][i] == s[i];
    assert forall i :: 0 <= i < |s| - k ==> s[k..][i] == s[k + i];
  }

  /** `s` with every `c` deleted. */
  function Remove(s: string, c: char): (r: string)
    ensures c !in r
    ensures |r| <= |s|
  {
    if s == [] then [] else (if s[0] == c then [] else [s[0]]) + Remove(s[1..], c)
  }

  lemma {:induction false} RemoveConcat(s: string, t: string, c: char)
    ensures Remove(s + t, c) == Remove(s, c) + Remove(t, c)
    decreases |s|
  {
    if s == [] {
      assert s + t == t;
    } else {
      var h: string := if s[0] == c then [] else [s[0]];
      assert (s + t)[0] == s[0];
      assert (s + t)[1..] == s[1..] + t;
      assert Remove(s + t, c) == h + Remove(s[1..] + t, c);
      RemoveConcat(s[1..], t, c);
      assert Remove(s, c) == h + Remove(s[1..], c);
    }
  }

  lemma {:induction false} RemoveAbsent(s: string, c: char)
    requires c !in s
    ensures Remove(s, c) == s
    decreases |s|
  {
    if s != [] {
      RemoveAbsent(s[1..], c);
    }
  }

  /** Element `j` of block `i` sits at `3 * i + j` when every earlier block has three elements. */
  lemma {:induction false} FlattenAt<T>(xss: seq<seq<T>>, i: nat, j: nat)
    requires i < |xss| && j < |xss[i]|
    requires forall b :: 0 <= b < i ==> |xss[b]| == 3
    ensures 3 * i + j < |Flatten(xss)|
    ensures Flatten(xss)[3 * i + j] == xss[i][j]
    decreases i
  {
    assert Flatten(xss) == xss[0] + Flatten(xss[1..]);
    if i > 0 {
      FlattenAt(xss[1..], i - 1, j);
    }
  }

  /** Blocks of three elements, the last of two, flatten to `3 * n - 1` elements. */
  lemma {:induction false} FlattenLength<T>(xss: seq<seq<T>>)
    requires forall b :: 0 <= b < |xss| - 1 ==> |xss[b]| == 3
    requires |xss| > 0 ==> |xss[|xss| - 1]| == 2
    ensures |Flatten(xss)| == if |xss| == 0 then 0 else 3 * |xss| - 1
    decreases |xss|
  {
    if |xss| > 0 {
      assert Flatten(xss) == xss[0] + Flatten(xss[1..]);
      FlattenLength(xss[1..]);
    }
  }

  /** Whatever holds of every element of every block holds of every element of the flattening. */
  lemma {:induction false} FlattenAll<T>(xss: seq<seq<T>>, p: T -> bool)
    requires forall i, j :: 0 <= i < |xss| && 0 <= j < |xss[i]| ==> p(xss[i][j])
    ensures forall k :: 0 <= k < |Flatten(xss)| ==> p(Flatten(xss)[k])
    decreases |xss|
  {
    if |xss| > 0 {
      var f := Flatten(xss);
      var tail := Flatten(xss[1..]);
      assert f == xss[0] + tail;
      FlattenAll(xss[1..], p);
      forall k | 0 <= k < |f|
        ensures p(f[k])
      {
        if k < |xss[0]| {
          assert f[k] == xss[0][k];
        } else {
          assert f[k] == tail[k - |xss[0]|];
        }
      }
    }
  }

  /** `Flatten` distributes over concatenation. */
  lemma {:induction false} FlattenConcat<T>(a: seq<seq<T>>, b: seq<seq<T>>)
    ensures Flatten(a + b) == Flatten(a) + Flatten(b)
    decreases |a|
  {
    if |a| == 0 {
      assert a + b == b;
    } else {
      assert (a + b)[1..] == a[1..] + b;
      FlattenConcat(a[1..], b);
    }
  }

  /** A character in none of the parts nor in the separator is not in their join. */
  lemma {:induction false} JoinWithout(c: char, sep: string, parts: seq<string>)
    requires c !in sep
    requires forall i :: 0 <= i < |parts| ==> c !in parts[i]
    ensures c !in Join(sep, parts)
    decreases |parts|
  {
    if |parts| > 1 {
      JoinWithout(c, sep, parts[..|parts| - 1]);
    }
  }

  /** Padding adds only spaces, so a character other than a space stays absent. */
  lemma PadWithout(c: char, s: string, width: int)
    requires c != ' ' && c !in s
    ensures c !in LJust(s, width)
    ensures c !in RJust(s, width)
    ensures c !in Center(s, width)
  {
    LJustWithout(c, s, width);
    RJustWithout(c, s, width);
    CenterWithout(c, s, width);
  }

  lemma LJustWithout(c: char, s: string, width: int)
    requires c != ' ' && c !in s
    ensures c !in LJust(s, width)
  {
    LJustPads(s, width);
    var r := LJust(s, width);
    forall k | 0 <= k < |r|
      ensures r[k] != c
    {
      if k < |s| {
        assert r[k] == r[..|s|][k];
      } else {
        assert r[k] == r[|s|..][k - |s|];
      }
    }
  }

  lemma RJustWithout(c: char, s: string, width: int)
    requires c != ' ' && c !in s
    ensures c !in RJust(s, width)
  {
    RJustPads(s, width);
    var r := RJust(s, width);
    var pad := |r| - |s|;
    forall k | 0 <= k < |r|
      ensures r[k] != c
    {
      if k < pad {
        assert r[k] == r[..pad][k];
      } else {
        assert r[k] == r[pad..][k - pad];
      }
    }
  }

  lemma CenterWithout(c: char, s: string, width: int)
    requires c != ' ' && c !in s
    ensures c !in Center(s, width)
  {
    var r := Center(s, width);
    var left := CenterLeft(|s|, width);
    forall k | 0 <= k < |r|
      ensures r[k] != c
    {
      if left <= k < left + |s| {
        assert r[k] == r[left..left + |s|][k - left] == s[k - left];
      } else if k < left {
        assert r[k] == r[..left][k];
      } else {
        assert r[k] == r[left + |s|..][k - left - |s|];
      }
    }
  }

  /**
   * `str.center` at work: an even margin splits evenly; an odd margin puts
   * the extra space on the left when the width is odd, on the right when
   * it is even.
   */
  lemma CenterExamples()
    ensures Center("ab", 6) == "  ab  "
    ensures Center("ab", 5) == "  ab "
    ensures Center("abc", 6) == " abc  "
    ensures Center("abcdef", 4) == "abcdef"
  {
  }
}
