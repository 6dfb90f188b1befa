/**
 * The layout engine of main.c: `wordlen` and `wrap`, which split a message's
 * codepoints into display lines no wider than the message pane.
 *
 * Each C routine is an index loop; it is modelled as a method with that loop,
 * proved equal to a recursive specification function, and the properties the
 * renderer relies on are proved about the specification function.
 */
module Layout {

  /** The codepoints `wrap` treats specially. */
  const Space := 32
  const Newline := 10

  predicate IsBlank(c: int) {
    c == Space || c == Newline
  }

  /**
   * What `wordlen(str, start)` returns. The C loop advances `i` twice per
   * iteration, so it only looks at the offsets start, start+2, start+4, ...:
   * the result is the first EVEN distance from `start` that lands on a blank
   * or at/after the end of the input. It can therefore overshoot the input by
   * one and step over a blank at an odd distance.
   */
  function WordLen(s: seq<int>, start: nat): (r: nat)
    ensures r % 2 == 0
    ensures start >= |s| ==> r == 0
    ensures start < |s| ==> start + r <= |s| + 1
    ensures start + r >= |s| || IsBlank(s[start + r])
    decreases |s| - start
  {
    if start >= |s| || IsBlank(s[start]) then 0 else 2 + WordLen(s, start + 2)
  }

  /** Every offset `wordlen` looks at before it stops holds a codepoint that is not a blank. */
  lemma {:induction false} WordLenStepsOverWord(s: seq<int>, start: nat, p: nat)
    requires start <= p < start + WordLen(s, start) && (p - start) % 2 == 0
    ensures p < |s| && !IsBlank(s[p])
    decreases |s| - start
  {
    if p > start {
      WordLenStepsOverWord(s, start + 2, p);
    }
  }

  /** `wordlen` as the C code computes it: a loop that steps `i` twice per round. */
  method MeasureWord(s: seq<int>, start: nat) returns (r: nat)
    ensures r == WordLen(s, start)
  {
    var i := start;
    while i < |s|
      invariant start <= i && (i - start) % 2 == 0
      invariant WordLen(s, start) == (i - start) + WordLen(s, i)
      decreases |s| + 1 - i
    {
      if IsBlank(s[i]) {
        break;
      }
      assert WordLen(s, i) == 2 + WordLen(s, i + 2);
      i := i + 1;
      i := i + 1;  // the for-loop's own increment
    }
    r := i - start;
  }

  /**
   * The state of `wrap`'s loop, run to the end: `i` is the next input index,
   * `line` the line being built and `done` the lines already emitted.
   * Rules, in the order the C code tests them: a newline ends the line; a
   * space ends the line when the line plus the next word (as `wordlen` measures
   * it) would reach the width, and is appended otherwise; a full line is
   * force-broken WITHOUT consuming the current character; anything else is
   * appended. The last line is always emitted.
   */
  function WrapFrom(s: seq<int>, width: int, i: nat, line: seq<int>, done: seq<seq<int>>): seq<seq<int>>
    requires width >= 1 && i <= |s|
    decreases |s| - i, if |line| >= width then 1 else 0
  {
    if i == |s| then done + [line]
    else if s[i] == Newline then WrapFrom(s, width, i + 1, [], done + [line])
    else if s[i] == Space then
      if |line| + WordLen(s, i + 1) >= width then WrapFrom(s, width, i + 1, [], done + [line])
      else WrapFrom(s, width, i + 1, line + [Space], done)
    else if |line| >= width then WrapFrom(s, width, i, [], done + [line])
    else WrapFrom(s, width, i + 1, line + [s[i]], done)
  }

  /** What `wrap(input, wrapline)` returns; it only terminates for a width of at least 1. */
  function Wrap(s: seq<int>, width: int): (r: seq<seq<int>>)
    requires width >= 1
    ensures |r| >= 1
  {
    WrapFromShape(s, width, 0, [], []);
    WrapFrom(s, width, 0, [], [])
  }

  /** `wrap` as the C code runs it: an index loop that skips the increment on a forced break. */
  method WrapText(input: seq<int>, wrapline: int) returns (result: seq<seq<int>>)
    requires wrapline >= 1
    ensures result == Wrap(input, wrapline)
    ensures |result| >= 1
    ensures forall n :: 0 <= n < |result| ==> |result[n]| <= wrapline && Newline !in result[n]
    ensures Strip(Flatten(result)) == Strip(input)
  {
    result := [];
    var line: seq<int> := [];
    var i := 0;
    while i < |input|
      invariant i <= |input|
      invariant WrapFrom(input, wrapline, i, line, result) == Wrap(input, wrapline)
      decreases |input| - i, if |line| >= wrapline then 1 else 0
    {
      var ch := input[i];
      if ch == Newline {
        result := result + [line];
        line := [];
        i := i + 1;
      } else if ch == Space {
        var next := MeasureWord(input, i + 1);
        if |line| + next >= wrapline {
          result := result + [line];
          line := [];
        } else {
          line := line + [ch];
        }
        i := i + 1;
      } else if |line| >= wrapline {
        result := result + [line];
        line := [];
      } else {
        line := line + [ch];
        i := i + 1;
      }
    }
    result := result + [line];
    WrapShape(input, wrapline);
    WrapKeepsText(input, wrapline);
  }

  /** Every line fits the width and holds no newline. */
  ghost predicate LinesFit(ls: seq<seq<int>>, width: int) {
    forall n :: 0 <= n < |ls| ==> |ls[n]| <= width && Newline !in ls[n]
  }

  lemma {:induction false} WrapFromShape(s: seq<int>, width: int, i: nat, line: seq<int>, done: seq<seq<int>>)
    requires width >= 1 && i <= |s|
    requires |line| <= width && Newline !in line
    requires LinesFit(done, width)
    ensures |WrapFrom(s, width, i, line, done)| > |done|
    ensures LinesFit(WrapFrom(s, width, i, line, done), width)
    decreases |s| - i, if |line| >= width then 1 else 0
  {
    if i == |s| {
    } else if s[i] == Newline {
      WrapFromShape(s, width, i + 1, [], done + [line]);
    } else if s[i] == Space {
      if |line| + WordLen(s, i + 1) >= width {
        WrapFromShape(s, width, i + 1, [], done + [line]);
      } else {
        WrapFromShape(s, width, i + 1, line + [Space], done);
      }
    } else if |line| >= width {
      WrapFromShape(s, width, i, [], done + [line]);
    } else {
      WrapFromShape(s, width, i + 1, line + [s[i]], done);
    }
  }

  /** For a width of at least 1, `wrap` returns at least one line, each at most `width` long and free of newlines. */
  lemma WrapShape(s: seq<int>, width: int)
    requires width >= 1
    ensures |Wrap(s, width)| >= 1
    ensures LinesFit(Wrap(s, width), width)
  {
    WrapFromShape(s, width, 0, [], []);
  }

  /** The lines laid end to end. */
  function Flatten(ls: seq<seq<int>>): seq<int>
  {
    if ls == [] then [] else Flatten(ls[..|ls| - 1]) + ls[|ls| - 1]
  }

  /**
   * `t` is `s` with every newline removed and some (possibly none, possibly
   * all) of its spaces removed; nothing else is dropped, added or reordered.
   */
  ghost predicate BlanksDropped(t: seq<int>, s: seq<int>)
    decreases |s|
  {
    if s == [] then t == []
    else
      var c := s[|s| - 1];
      (IsBlank(c) && BlanksDropped(t, s[..|s| - 1]))
      || (c != Newline && t != [] && t[|t| - 1] == c && BlanksDropped(t[..|t| - 1], s[..|s| - 1]))
  }

  /** The codepoints of `s` that are neither spaces nor newlines, in order. */
  function Strip(s: seq<int>): seq<int>
  {
    if s == [] then []
    else Strip(s[..|s| - 1]) + (if IsBlank(s[|s| - 1]) then [] else [s[|s| - 1]])
  }

  lemma {:induction false} WrapFromKeepsText(s: seq<int>, width: int, i: nat, line: seq<int>, done: seq<seq<int>>)
    requires width >= 1 && i <= |s|
    requires BlanksDropped(Flatten(done) + line, s[..i])
    ensures BlanksDropped(Flatten(WrapFrom(s, width, i, line, done)), s)
    decreases |s| - i, if |line| >= width then 1 else 0
  {
    var t := Flatten(done) + line;
    assert Flatten(done + [line]) == t by {
      assert (done + [line])[..|done|] == done;
    }
    if i == |s| {
      assert s[..i] == s;
    } else {
      var pre := s[..i + 1];
      assert pre[..i] == s[..i] && pre[i] == s[i];
      if s[i] == Newline {
        assert BlanksDropped(t, pre);
        assert Flatten(done + [line]) + [] == t;
        WrapFromKeepsText(s, width, i + 1, [], done + [line]);
      } else if s[i] == Space {
        if |line| + WordLen(s, i + 1) >= width {
          assert BlanksDropped(t, pre);
          assert Flatten(done + [line]) + [] == t;
          WrapFromKeepsText(s, width, i + 1, [], done + [line]);
        } else {
          var t' := Flatten(done) + (line + [Space]);
          assert t' == t + [Space] && t'[..|t'| - 1] == t;
          assert BlanksDropped(t', pre);
          WrapFromKeepsText(s, width, i + 1, line + [Space], done);
        }
      } else if |line| >= width {
        assert Flatten(done + [line]) + [] == t;
        WrapFromKeepsText(s, width, i, [], done + [line]);
      } else {
        var t' := Flatten(done) + (line + [s[i]]);
        assert t' == t + [s[i]] && t'[..|t'| - 1] == t;
        assert BlanksDropped(t', pre);
        WrapFromKeepsText(s, width, i + 1, line + [s[i]], done);
      }
    }
  }

  lemma {:induction false} DroppedKeepsStripped(t: seq<int>, s: seq<int>)
    requires BlanksDropped(t, s)
    ensures Strip(t) == Strip(s)
    ensures Newline !in t
    decreases |s|
  {
    if s == [] {
    } else {
      var c := s[|s| - 1];
      if IsBlank(c) && BlanksDropped(t, s[..|s| - 1]) {
        DroppedKeepsStripped(t, s[..|s| - 1]);
      } else {
        var t' := t[..|t| - 1];
        DroppedKeepsStripped(t', s[..|s| - 1]);
        assert t == t' + [c];
      }
    }
  }

  /**
   * Laying `wrap`'s lines end to end gives the input with every newline and
   * some spaces removed: every other codepoint survives, in order.
   */
  lemma WrapKeepsText(s: seq<int>, width: int)
    requires width >= 1
    ensures BlanksDropped(Flatten(Wrap(s, width)), s)
    ensures Strip(Flatten(Wrap(s, width))) == Strip(s)
  {
    assert s[..0] == [];
    WrapFromKeepsText(s, width, 0, [], []);
    DroppedKeepsStripped(Flatten(Wrap(s, width)), s);
  }

  // Worked examples. Codepoints: 'a' 97, 'b' 98, 'e' 101, 'h' 104, 'i' 105,
  // 'l' 108, 'o' 111, 'r' 114, 't' 116.

  /** `wordlen` overshoots: after "a b" it reports 4 from offset 0 (the space at offset 1 is never looked at) and 2 from offset 2. */
  lemma WordLenOvershoots()
    ensures WordLen([97, 32, 98], 0) == 4
    ensures WordLen([97, 32, 98], 2) == 2
  {
  }

  /** Because of that overshoot, "a b" at width 3 is split although it would fit. */
  lemma WrapShortWords()
    ensures Wrap([97, 32, 98], 3) == [[97], [98]]
  {
    var s := [97, 32, 98];
    assert WordLen(s, 2) == 2;
    assert WrapFrom(s, 3, 3, [98], [[97]]) == [[97], [98]];
    assert [] + [s[2]] == [98];
    assert WrapFrom(s, 3, 2, [], [[97]]) == WrapFrom(s, 3, 3, [98], [[97]]);
    assert WrapFrom(s, 3, 1, [97], []) == WrapFrom(s, 3, 2, [], [[97]]);
    assert [] + [s[0]] == [97];
    assert WrapFrom(s, 3, 0, [], []) == WrapFrom(s, 3, 1, [97], []);
  }

  /** A word longer than the width is force-broken: "hello" at width 3. */
  lemma WrapLongWord()
    ensures Wrap([104, 101, 108, 108, 111], 3) == [[104, 101, 108], [108, 111]]
  {
    var s := [104, 101, 108, 108, 111];
    var hel := [104, 101, 108];
    assert WrapFrom(s, 3, 5, [108, 111], [hel]) == [hel, [108, 111]];
    assert [108] + [s[4]] == [108, 111];
    assert WrapFrom(s, 3, 4, [108], [hel]) == WrapFrom(s, 3, 5, [108, 111], [hel]);
    assert [] + [s[3]] == [108];
    assert WrapFrom(s, 3, 3, [], [hel]) == WrapFrom(s, 3, 4, [108], [hel]);
    assert WrapFrom(s, 3, 3, hel, []) == WrapFrom(s, 3, 3, [], [hel]);
    assert [104, 101] + [s[2]] == hel;
    assert WrapFrom(s, 3, 2, [104, 101], []) == WrapFrom(s, 3, 3, hel, []);
    assert [104] + [s[1]] == [104, 101];
    assert WrapFrom(s, 3, 1, [104], []) == WrapFrom(s, 3, 2, [104, 101], []);
    assert [] + [s[0]] == [104];
    assert WrapFrom(s, 3, 0, [], []) == WrapFrom(s, 3, 1, [104], []);
  }

  /** "hi there" at width 4 gives "hi", "ther", "e": the space breaks before "there", which is then force-broken. */
  lemma WrapHiThere()
    ensures Wrap([104, 105, 32, 116, 104, 101, 114, 101], 4) == [[104, 105], [116, 104, 101, 114], [101]]
  {
    var s := [104, 105, 32, 116, 104, 101, 114, 101];
    var hi := [104, 105];
    var ther := [116, 104, 101, 114];
    assert WordLen(s, 3) == 6 by {
      assert WordLen(s, 9) == 0;
      assert WordLen(s, 7) == 2;
      assert WordLen(s, 5) == 4;
    }
    assert WrapFrom(s, 4, 8, [101], [hi, ther]) == [hi, ther, [101]];
    assert [] + [s[7]] == [101];
    assert WrapFrom(s, 4, 7, [], [hi, ther]) == WrapFrom(s, 4, 8, [101], [hi, ther]);
    assert WrapFrom(s, 4, 7, ther, [hi]) == WrapFrom(s, 4, 7, [], [hi, ther]);
    assert [116, 104, 101] + [s[6]] == ther;
    assert WrapFrom(s, 4, 6, [116, 104, 101], [hi]) == WrapFrom(s, 4, 7, ther, [hi]);
    assert [116, 104] + [s[5]] == [116, 104, 101];
    assert WrapFrom(s, 4, 5, [116, 104], [hi]) == WrapFrom(s, 4, 6, [116, 104, 101], [hi]);
    assert [116] + [s[4]] == [116, 104];
    assert WrapFrom(s, 4, 4, [116], [hi]) == WrapFrom(s, 4, 5, [116, 104], [hi]);
    assert [] + [s[3]] == [116];
    assert WrapFrom(s, 4, 3, [], [hi]) == WrapFrom(s, 4, 4, [116], [hi]);
    assert WrapFrom(s, 4, 2, hi, []) == WrapFrom(s, 4, 3, [], [hi]);
    assert [104] + [s[1]] == hi;
    assert WrapFrom(s, 4, 1, [104], []) == WrapFrom(s, 4, 2, hi, []);
    assert [] + [s[0]] == [104];
    assert WrapFrom(s, 4, 0, [], []) == WrapFrom(s, 4, 1, [104], []);
  }
}
