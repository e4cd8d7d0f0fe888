/** The wrapper of sign messages: a greedy word wrap of which only the first three lines are sent. */
module WordWrap {
  const MAX_MESSAGE_LENGTH := 20

  // ----- the string functions of the host language -----

  /** The characters that splitting and stripping treat as white space. */
  predicate IsSpace(c: char)
  {
    var n := c as int;
    || 0x09 <= n <= 0x0d || 0x1c <= n <= 0x20 || n == 0x85 || n == 0xa0 || n == 0x1680 || 0x2000 <= n <= 0x200a
    || n == 0x2028 || n == 0x2029 || n == 0x202f || n == 0x205f || n == 0x3000
  }

  lemma SpacesAre(c: char)
    ensures IsSpace(c)
            <==> c as int in {
              9, 10, 11, 12, 13, 28, 29, 30, 31, 32, 133, 160, 5760, 8192, 8193, 8194, 8195, 8196, 8197, 8198, 8199,
              8200, 8201, 8202, 8232, 8233, 8239, 8287, 12288}
  {
  }

  function WordLength(s: string): (n: nat)
    ensures n <= |s| && (n < |s| ==> IsSpace(s[n]))
  {
    if s == [] || IsSpace(s[0]) then 0 else 1 + WordLength(s[1..])
  }

  /** The words of a text. */
  function Split(s: string): seq<string>
    decreases |s|
  {
    if s == [] then []
    else if IsSpace(s[0]) then Split(s[1..])
    else [s[..WordLength(s)]] + Split(s[WordLength(s)..])
  }

  function LStrip(s: string): string
  {
    if s != [] && IsSpace(s[0]) then LStrip(s[1..]) else s
  }

  function RStrip(s: string): string
  {
    if s != [] && IsSpace(s[|s| - 1]) then RStrip(s[..|s| - 1]) else s
  }

  function Strip(s: string): string
  {
    RStrip(LStrip(s))
  }

  // ----- lines as groups of words -----

  predicate CleanWord(w: string)
  {
    w != [] && forall i :: 0 <= i < |w| ==> !IsSpace(w[i])
  }

  predicate Clean(g: seq<string>)
  {
    forall i :: 0 <= i < |g| ==> CleanWord(g[i])
  }

  /** The text of a line: its words with one space between them. */
  function Join(g: seq<string>): string
  {
    if g == [] then []
    else if |g| == 1 then g[0]
    else Join(g[..|g| - 1]) + " " + g[|g| - 1]
  }

  /** A line while it is being built: there is a space behind every word. */
  function Line(g: seq<string>): (s: string)
    ensures |s| == Width(g)
  {
    if g == [] then [] else Line(g[..|g| - 1]) + g[|g| - 1] + " "
  }

  function Width(g: seq<string>): nat
  {
    if g == [] then 0 else Width(g[..|g| - 1]) + |g[|g| - 1]| + 1
  }

  /** The words of several lines, in order. */
  function Flatten(groups: seq<seq<string>>): seq<string>
  {
    if groups == [] then [] else groups[0] + Flatten(groups[1..])
  }

  function Texts(groups: seq<seq<string>>): (lines: seq<string>)
    ensures |lines| == |groups|
  {
    if groups == [] then [] else Texts(groups[..|groups| - 1]) + [Join(groups[|groups| - 1])]
  }

  /** The greedy wrap, from a line that holds some words already. */
  function Greedy(words: seq<string>, cur: seq<string>): (groups: seq<seq<string>>)
    ensures |groups| > 0
  {
    if words == [] then [cur]
    else if Width(cur) + |words[0]| + 1 <= MAX_MESSAGE_LENGTH then Greedy(words[1..], cur + [words[0]])
    else [cur] + Greedy(words[1..], [words[0]])
  }

  /** The lines that a message is broken into. */
  function Lines(message: string): (lines: seq<string>)
    ensures |lines| > 0
  {
    Texts(Greedy(Split(message), []))
  }

  /** The words of several lines of text. */
  function WordsOf(lines: seq<string>): seq<string>
  {
    if lines == [] then [] else Split(lines[0]) + WordsOf(lines[1..])
  }

  /** All lines have at most 19 characters. */
  predicate Fit(lines: seq<string>)
  {
    forall i :: 0 <= i < |lines| ==> |lines[i]| <= 19
  }

  // ----- the loop -----

  method BreakMessage(message: string) returns (brokenMessage: seq<string>)
    ensures brokenMessage == Lines(message)
  {
    hide Split, Strip, Width, Greedy, Join, Line, CleanWord;
    brokenMessage := [];
    var words := Split(message);
    var currentLine := "";
    ghost var cur, done: seq<seq<string>> := [], [];
    SplitClean(message);
    LineOfNone();
    var i := 0;
    assert [] + Greedy(words[0..], []) == Greedy(words, []);
    while i < |words|
      invariant i <= |words| && Clean(cur) && currentLine == Line(cur)
      invariant brokenMessage == Texts(done) && done + Greedy(words[i..], cur) == Greedy(words, [])
    {
      var word := words[i];
      GreedyStep(words[i..], cur, done);
      assert words[i..][1..] == words[i + 1..];
      if |currentLine| + |word| + 1 <= MAX_MESSAGE_LENGTH {
        LineMore(cur, word);
        currentLine := currentLine + word + " ";
        cur := cur + [word];
      } else {
        StripLine(cur);
        TextsMore(done, cur);
        LineMore([], word);
        brokenMessage := brokenMessage + [Strip(currentLine)];
        done := done + [cur];
        currentLine := word + " ";
        cur := [word];
      }
      i := i + 1;
    }
    StripLine(cur);
    TextsMore(done, cur);
    GreedyEnd(words[i..], cur);
    brokenMessage := brokenMessage + [Strip(currentLine)];
  }

  /** Only the first three lines of a message are sent to the sign; missing ones are empty. */
  function Sent(message: string): (lines: seq<string>)
    ensures |lines| == 3
  {
    (Lines(message) + ["", ""])[..3]
  }

  method SignLines(message: string) returns (message1: string, message2: string, message3: string)
    ensures [message1, message2, message3] == Sent(message)
  {
    var brokenMessages := BreakMessage(message);
    message1 := if |brokenMessages| >= 1 then brokenMessages[0] else "";
    message2 := if |brokenMessages| >= 2 then brokenMessages[1] else "";
    message3 := if |brokenMessages| >= 3 then brokenMessages[2] else "";
  }

  lemma LineOfNone()
    ensures Line([]) == "" && Texts([]) == []
  {
  }

  lemma LineMore(g: seq<string>, w: string)
    ensures Line(g + [w]) == Line(g) + w + " " && Width(g + [w]) == Width(g) + |w| + 1
    ensures g == [] ==> g + [w] == [w] && Line(g) + w == w
  {
    assert (g + [w])[..|g|] == g;
  }

  lemma TextsMore(groups: seq<seq<string>>, g: seq<string>)
    ensures Texts(groups + [g]) == Texts(groups) + [Join(g)]
  {
    assert (groups + [g])[..|groups|] == groups;
  }

  lemma {:induction false} GreedyStep(words: seq<string>, cur: seq<string>, done: seq<seq<string>>)
    requires words != []
    ensures if Width(cur) + |words[0]| + 1 <= MAX_MESSAGE_LENGTH
            then Greedy(words, cur) == Greedy(words[1..], cur + [words[0]])
            else done + Greedy(words, cur) == (done + [cur]) + Greedy(words[1..], [words[0]])
  {
  }

  lemma GreedyEnd(words: seq<string>, cur: seq<string>)
    requires words == []
    ensures Greedy(words, cur) == [cur]
  {
  }

  // ----- stripping and splitting undo building a line -----

  /** The text of a line starts and ends with a letter, and the line has one more space behind it. */
  lemma {:induction false} JoinEnds(g: seq<string>)
    requires Clean(g) && g != []
    ensures var s := Join(g); s != [] && !IsSpace(s[0]) && !IsSpace(s[|s| - 1]) && Line(g) == s + " "
  {
    hide IsSpace;
    var last := |g| - 1;
    assert CleanWord(g[last]);
    if last == 0 {
      LineOfNone();
      assert g[..last] == [];
      assert [] + g[0] + " " == g[0] + " ";
    } else {
      JoinEnds(g[..last]);
    }
  }

  lemma {:induction false} StripLine(g: seq<string>)
    requires Clean(g)
    ensures Strip(Line(g)) == Join(g)
  {
    if g == [] {
      LineOfNone();
    } else {
      JoinEnds(g);
      hide Line, Join;
      var s := Join(g);
      assert IsSpace(' ');
      assert (s + " ")[..|s|] == s;
      assert RStrip(s + " ") == RStrip(s) == s;
    }
  }

  lemma {:induction false} WordIsClean(s: string)
    requires s != [] && !IsSpace(s[0])
    ensures CleanWord(s[..WordLength(s)])
    decreases |s|
  {
    hide IsSpace;
    var n := WordLength(s);
    if n > 1 {
      WordIsClean(s[1..]);
      assert s[..n] == [s[0]] + s[1..][..n - 1];
    }
  }

  lemma {:induction false} SplitClean(s: string)
    ensures Clean(Split(s))
    decreases |s|
  {
    hide IsSpace, CleanWord;
    if s != [] {
      if IsSpace(s[0]) {
        SplitClean(s[1..]);
      } else {
        WordIsClean(s);
        SplitClean(s[WordLength(s)..]);
      }
    }
  }

  lemma {:induction false} WordLengthBefore(x: string, y: string)
    requires y != [] ==> IsSpace(y[0])
    ensures WordLength(x + y) == WordLength(x)
  {
    hide IsSpace;
    if x != [] && !IsSpace(x[0]) {
      WordLengthBefore(x[1..], y);
      assert (x + y)[1..] == x[1..] + y;
    } else if x == [] {
      assert x + y == y;
    }
  }

  /** White space separates words. */
  lemma {:induction false} SplitConcat(x: string, y: string)
    requires y != [] ==> IsSpace(y[0])
    ensures Split(x + y) == Split(x) + Split(y)
    decreases |x|
  {
    hide IsSpace;
    if x == [] {
      assert x + y == y;
    } else if IsSpace(x[0]) {
      SplitConcat(x[1..], y);
      assert (x + y)[1..] == x[1..] + y;
    } else {
      var n := WordLength(x);
      WordLengthBefore(x, y);
      SplitConcat(x[n..], y);
      assert (x + y)[..n] == x[..n] && (x + y)[n..] == x[n..] + y;
      assert n > 0;
    }
  }

  lemma {:induction false} SplitWord(w: string)
    requires CleanWord(w)
    ensures Split(w) == [w]
  {
    CleanLength(w);
    assert w[..|w|] == w;
  }

  lemma {:induction false} CleanLength(w: string)
    requires forall i :: 0 <= i < |w| ==> !IsSpace(w[i])
    ensures WordLength(w) == |w|
  {
    hide IsSpace;
    if w != [] {
      CleanLength(w[1..]);
    }
  }

  lemma {:induction false} SplitSpace(w: string)
    ensures Split(" " + w) == Split(w)
  {
    assert (" " + w)[1..] == w;
  }

  /** The words of a line read back. */
  lemma {:induction false} SplitJoin(g: seq<string>)
    requires Clean(g)
    ensures Split(Join(g)) == g
  {
    hide Split, IsSpace, CleanWord;
    if |g| > 1 {
      var last := |g| - 1;
      SplitJoin(g[..last]);
      SplitWord(g[last]);
      SplitSpace(g[last]);
      JoinMore(g);
      assert IsSpace((" " + g[last])[0]) by { SpaceIsSpace(); }
      SplitConcat(Join(g[..last]), " " + g[last]);
    } else if |g| == 1 {
      SplitWord(g[0]);
    } else {
      SplitNothing();
    }
  }

  /** White space separates words wherever it stands. */
  lemma {:induction false} SplitBlank(c: char, w: string)
    requires IsSpace(c)
    ensures Split([c] + w) == Split(w)
  {
    hide IsSpace;
    assert ([c] + w)[1..] == w;
  }

  lemma SpaceIsSpace()
    ensures IsSpace(' ')
  {
  }

  lemma SplitNothing()
    ensures Split([]) == []
  {
  }

  lemma JoinMore(g: seq<string>)
    requires |g| > 1
    ensures Join(g) == Join(g[..|g| - 1]) + (" " + g[|g| - 1])
  {
  }

  // ----- nothing is lost -----

  ghost predicate CleanGroups(groups: seq<seq<string>>) {
    forall i :: 0 <= i < |groups| ==> Clean(groups[i])
  }

  lemma {:induction false} FlattenConcat(x: seq<seq<string>>, y: seq<seq<string>>)
    ensures Flatten(x + y) == Flatten(x) + Flatten(y)
  {
    if x == [] {
      assert x + y == y;
    } else {
      FlattenConcat(x[1..], y);
      assert (x + y)[1..] == x[1..] + y && (x + y)[0] == x[0];
      Assoc(x[0], Flatten(x[1..]), Flatten(y));
    }
  }

  lemma Assoc<T>(x: seq<T>, y: seq<T>, z: seq<T>)
    ensures (x + y) + z == x + (y + z)
  {
  }

  lemma {:induction false} WordsOfConcat(x: seq<string>, y: seq<string>)
    ensures WordsOf(x + y) == WordsOf(x) + WordsOf(y)
  {
    hide Split;
    if x == [] {
      assert x + y == y;
    } else {
      WordsOfConcat(x[1..], y);
      assert (x + y)[1..] == x[1..] + y && (x + y)[0] == x[0];
      Assoc(Split(x[0]), WordsOf(x[1..]), WordsOf(y));
    }
  }

  lemma {:induction false} OneLine(s: string)
    ensures WordsOf([s]) == Split(s)
  {
    hide Split;
    assert WordsOf([s][1..]) == [];
  }

  lemma {:induction false} OneGroup(g: seq<string>)
    ensures Flatten([g]) == g
  {
    assert Flatten([g][1..]) == [];
  }

  /** The words of the texts of some lines are the words of those lines. */
  lemma {:induction false} WordsOfTexts(groups: seq<seq<string>>)
    requires CleanGroups(groups)
    ensures WordsOf(Texts(groups)) == Flatten(groups)
  {
    hide Split, Join, Clean;
    if groups != [] {
      var head, g := groups[..|groups| - 1], groups[|groups| - 1];
      WordsOfTexts(head);
      SplitJoin(g);
      WordsOfConcat(Texts(head), [Join(g)]);
      OneLine(Join(g));
      FlattenConcat(head, [g]);
      OneGroup(g);
      assert head + [g] == groups;
    }
  }

  lemma {:induction false} GreedyKeeps(words: seq<string>, cur: seq<string>)
    requires Clean(words) && Clean(cur)
    ensures CleanGroups(Greedy(words, cur)) && Flatten(Greedy(words, cur)) == cur + words
  {
    hide CleanWord, Width, Flatten;
    if words == [] {
      OneGroup(cur);
    } else if Width(cur) + |words[0]| + 1 <= MAX_MESSAGE_LENGTH {
      GreedyKeeps(words[1..], cur + [words[0]]);
      assert cur + [words[0]] + words[1..] == cur + words;
    } else {
      GreedyKeeps(words[1..], [words[0]]);
      OneGroup(cur);
      FlattenConcat([cur], Greedy(words[1..], [words[0]]));
      assert [words[0]] + words[1..] == words;
    }
  }

  /** The lines of a message contain all its words in order. */
  lemma {:induction false} Lossless(message: string)
    ensures WordsOf(Lines(message)) == Split(message)
  {
    hide Split, Greedy, WordsOf;
    SplitClean(message);
    GreedyKeeps(Split(message), []);
    WordsOfTexts(Greedy(Split(message), []));
    assert [] + Split(message) == Split(message);
  }

  // ----- when the lines fit -----

  lemma {:induction false} WidthConcat(x: seq<string>, y: seq<string>)
    ensures Width(x + y) == Width(x) + Width(y)
    decreases |y|
  {
    if y == [] {
      assert x + y == x;
    } else {
      WidthConcat(x, y[..|y| - 1]);
      assert (x + y)[..|x + y| - 1] == x + y[..|y| - 1];
    }
  }

  lemma {:induction false} WidthOne(w: string)
    ensures Width([w]) == |w| + 1
  {
    assert Width([w][..0]) == 0;
  }

  /** A line fits exactly if it has room for the space behind it. */
  lemma {:induction false} JoinWidth(g: seq<string>)
    requires Clean(g)
    ensures |Join(g)| <= 19 <==> Width(g) <= MAX_MESSAGE_LENGTH
  {
    if g == [] {
      LineOfNone();
    } else {
      JoinEnds(g);
      assert |Line(g)| == |Join(g)| + 1;
    }
  }

  ghost predicate Narrow(groups: seq<seq<string>>) {
    forall i :: 0 <= i < |groups| ==> Width(groups[i]) <= MAX_MESSAGE_LENGTH
  }

  lemma {:induction false} FitIsNarrow(groups: seq<seq<string>>)
    requires CleanGroups(groups)
    ensures Fit(Texts(groups)) <==> Narrow(groups)
  {
    hide Join, Width, Clean;
    if groups != [] {
      var head, g := groups[..|groups| - 1], groups[|groups| - 1];
      FitIsNarrow(head);
      JoinWidth(g);
      var t, u := Texts(groups), Texts(head);
      assert t == u + [Join(g)];
      assert Fit(t) <==> Fit(u) && |Join(g)| <= 19 by {
        assert t[..|u|] == u && t[|u|] == Join(g);
        assert forall i :: 0 <= i < |u| ==> t[i] == u[i];
      }
      assert Narrow(groups) <==> Narrow(head) && Width(g) <= MAX_MESSAGE_LENGTH by {
        assert forall i :: 0 <= i < |head| ==> groups[i] == head[i];
      }
    }
  }

  predicate Short(words: seq<string>)
  {
    forall i :: 0 <= i < |words| ==> |words[i]| <= 19
  }

  lemma {:induction false} GreedyNarrow(words: seq<string>, cur: seq<string>)
    requires Short(words) && Width(cur) <= MAX_MESSAGE_LENGTH
    ensures Narrow(Greedy(words, cur))
  {
    hide Width;
    if words != [] {
      LineMore(cur, words[0]);
      WidthOne(words[0]);
      if Width(cur) + |words[0]| + 1 <= MAX_MESSAGE_LENGTH {
        GreedyNarrow(words[1..], cur + [words[0]]);
      } else {
        GreedyNarrow(words[1..], [words[0]]);
      }
    }
  }

  lemma {:induction false} NarrowShort(g: seq<string>)
    requires Width(g) <= MAX_MESSAGE_LENGTH
    ensures Short(g)
  {
    if g != [] {
      NarrowShort(g[..|g| - 1]);
    }
  }

  lemma {:induction false} NarrowShorts(groups: seq<seq<string>>)
    requires Narrow(groups)
    ensures Short(Flatten(groups))
  {
    hide Width;
    if groups != [] {
      NarrowShort(groups[0]);
      NarrowShorts(groups[1..]);
    }
  }

  /** The limit in effect is one less than the constant, since a space is counted behind every word: all lines have
      at most 19 characters exactly when all words do. */
  lemma {:induction false} FitsIff(message: string)
    ensures Fit(Lines(message)) <==> Short(Split(message))
  {
    hide Split, Greedy, Fit, Width, Narrow, Short, Clean;
    var words := Split(message);
    SplitClean(message);
    CleanNothing();
    GreedyKeeps(words, []);
    assert [] + words == words;
    FitIsNarrow(Greedy(words, []));
    if Short(words) {
      GreedyNarrow(words, []);
    }
    if Narrow(Greedy(words, [])) {
      NarrowShorts(Greedy(words, []));
    }
  }

  lemma CleanNothing()
    ensures Clean([]) && Width([]) == 0
  {
  }

  // ----- no wrap is better -----

  /** The greedy wrap stays ahead of any other wrap of the same words. The other one has a line that holds other so
      far and will hold next, too; behind it come the lines rest. The greedy one has either used fewer lines, or as
      many and its line is not fuller. */
  lemma {:induction false} StaysAhead(words: seq<string>, cur: seq<string>, other: seq<string>, next: seq<string>,
                                      rest: seq<seq<string>>, credit: nat)
    requires words == next + Flatten(rest)
    requires Width(other + next) <= MAX_MESSAGE_LENGTH && Narrow(rest)
    requires credit > 0 || Width(cur) <= Width(other)
    ensures |Greedy(words, cur)| <= 1 + |rest| + credit
    decreases |words|, |rest|
  {
    hide Width, Narrow, Greedy;
    if next != [] {
      var w := next[0];
      GreedyStep(words, cur, []);
      LineMore(cur, w);
      LineMore(other, w);
      WidthOne(w);
      WidthConcat(other + [w], next[1..]);
      assert (other + [w]) + next[1..] == other + next;
      assert words[1..] == next[1..] + Flatten(rest);
      if Width(cur) + |w| + 1 <= MAX_MESSAGE_LENGTH {
        StaysAhead(words[1..], cur + [w], other + [w], next[1..], rest, credit);
      } else {
        StaysAhead(words[1..], [w], other + [w], next[1..], rest, credit - 1);
      }
    } else if rest != [] {
      NarrowRest(rest);
      assert words == rest[0] + Flatten(rest[1..]);
      assert [] + rest[0] == rest[0];
      StaysAhead(words, cur, [], rest[0], rest[1..], credit + 1);
    } else {
      GreedyEnd(words, cur);
    }
  }

  lemma NarrowRest(rest: seq<seq<string>>)
    requires Narrow(rest) && rest != []
    ensures Narrow(rest[1..]) && Width(rest[0]) <= MAX_MESSAGE_LENGTH
  {
  }

  lemma {:induction false} FewestGroups(groups: seq<seq<string>>)
    requires Narrow(groups)
    ensures |Greedy(Flatten(groups), [])| <= if groups == [] then 1 else |groups|
  {
    hide Width, Narrow, Greedy;
    CleanNothing();
    if groups == [] {
      GreedyEnd([], []);
    } else {
      NarrowRest(groups);
      assert [] + groups[0] == groups[0];
      StaysAhead(Flatten(groups), [], [], groups[0], groups[1..], 0);
    }
  }

  function Splits(lines: seq<string>): (groups: seq<seq<string>>)
    ensures |groups| == |lines|
  {
    if lines == [] then [] else [Split(lines[0])] + Splits(lines[1..])
  }

  /** Spacing the words of a line differently does not save room. */
  lemma {:induction false} SplitWidth(s: string)
    ensures Width(Split(s)) <= |s| + 1
    decreases |s|
  {
    hide IsSpace, Width;
    if s == [] {
      CleanNothing();
    } else if IsSpace(s[0]) {
      SplitWidth(s[1..]);
    } else {
      var n := WordLength(s);
      var tail := s[n..];
      WidthConcat([s[..n]], Split(tail));
      WidthOne(s[..n]);
      if tail == [] {
        CleanNothing();
      } else {
        SplitWidth(tail[1..]);
        assert Split(tail) == Split(tail[1..]);
      }
    }
  }

  lemma {:induction false} SplitsNarrow(lines: seq<string>)
    requires Fit(lines)
    ensures Narrow(Splits(lines)) && Flatten(Splits(lines)) == WordsOf(lines)
  {
    hide Split, Width;
    if lines != [] {
      SplitsNarrow(lines[1..]);
      SplitWidth(lines[0]);
      assert Splits(lines)[1..] == Splits(lines[1..]);
    }
  }

  /** No other lines under the same limit that contain the same words in order are fewer. */
  lemma {:induction false} FewestLines(message: string, other: seq<string>)
    requires Fit(other) && WordsOf(other) == Split(message) && Split(message) != []
    ensures |Lines(message)| <= |other|
  {
    hide Split, Fit, Greedy, Narrow;
    SplitsNarrow(other);
    FewestGroups(Splits(other));
  }

  /** A longer message has the same lines, except that the last one may get more words. */
  lemma {:induction false} GreedyExtends(x: seq<string>, y: seq<string>, cur: seq<string>)
    ensures var k := |Greedy(x, cur)|;
            k <= |Greedy(x + y, cur)| && cur + x <= Flatten(Greedy(x + y, cur)[..k])
  {
    hide Width, Flatten;
    var all := Greedy(x + y, cur);
    if x == [] {
      assert x + y == y && cur + x == cur;
      FirstGroup(y, cur);
    } else {
      assert (x + y)[1..] == x[1..] + y;
      if Width(cur) + |x[0]| + 1 <= MAX_MESSAGE_LENGTH {
        GreedyExtends(x[1..], y, cur + [x[0]]);
        assert cur + [x[0]] + x[1..] == cur + x;
      } else {
        GreedyExtends(x[1..], y, [x[0]]);
        var more, k := Greedy(x[1..] + y, [x[0]]), |Greedy(x[1..], [x[0]])|;
        assert all[..k + 1] == [cur] + more[..k];
        FlattenConcat([cur], more[..k]);
        OneGroup(cur);
        assert [x[0]] + x[1..] == x;
      }
    }
  }

  lemma {:induction false} FirstGroup(words: seq<string>, cur: seq<string>)
    ensures var all := Greedy(words, cur); Flatten(all[..1]) == all[0] && cur <= all[0]
  {
    hide Width;
    OneGroup(Greedy(words, cur)[0]);
    assert Greedy(words, cur)[..1] == [Greedy(words, cur)[0]];
    if words != [] && Width(cur) + |words[0]| + 1 <= MAX_MESSAGE_LENGTH {
      FirstGroup(words[1..], cur + [words[0]]);
    }
  }

  function FirstLines(lines: seq<string>, k: nat): seq<string>
  {
    if k <= |lines| then lines[..k] else lines
  }

  lemma {:induction false} TextsPrefix(groups: seq<seq<string>>, k: nat)
    requires k <= |groups|
    ensures Texts(groups)[..k] == Texts(groups[..k])
    decreases |groups|
  {
    hide Join;
    if k < |groups| {
      TextsPrefix(groups[..|groups| - 1], k);
      assert groups[..|groups| - 1][..k] == groups[..k];
    } else {
      assert groups[..k] == groups;
    }
  }

  lemma {:induction false} FlattenPrefix(groups: seq<seq<string>>, j: nat, k: nat)
    requires j <= k <= |groups|
    ensures Flatten(groups[..j]) <= Flatten(groups[..k])
  {
    hide Flatten;
    assert groups[..k] == groups[..j] + groups[j..k];
    FlattenConcat(groups[..j], groups[j..k]);
  }

  /** The first k lines carry at least as much of the message as any k lines under the same limit that carry a
      beginning of it. For k = 3, those are the lines that are sent. */
  lemma {:induction false} MostText(message: string, other: seq<string>)
    requires other != [] && Fit(other) && WordsOf(other) <= Split(message)
    ensures WordsOf(other) <= WordsOf(FirstLines(Lines(message), |other|))
  {
    hide Split, Greedy, Narrow, Texts, Clean, WordsOf, Flatten;
    var words, x, k := Split(message), WordsOf(other), |other|;
    var y := words[|x|..];
    assert x + y == words;
    SplitsNarrow(other);
    FewestGroups(Splits(other));
    GreedyExtends(x, y, []);
    var all, j := Greedy(words, []), |Greedy(x, [])|;
    SplitClean(message);
    CleanNothing();
    GreedyKeeps(words, []);
    var m := if k <= |all| then k else |all|;
    FlattenPrefix(all, j, m);
    assert [] + x == x;
    TextsPrefix(all, m);
    CleanPrefix(all, m);
    WordsOfTexts(all[..m]);
    assert Texts(all)[..|all|] == Texts(all);
  }

  lemma CleanPrefix(groups: seq<seq<string>>, k: nat)
    requires CleanGroups(groups) && k <= |groups|
    ensures CleanGroups(groups[..k])
  {
  }

  /** The lines that are sent are the first lines of the message in their places, and empty ones behind them. */
  lemma {:induction false} SentLine(message: string, i: nat)
    requires i < 3
    ensures Sent(message)[i] == if i < |Lines(message)| then Lines(message)[i] else ""
  {
    hide Lines;
  }

  /** So the first one, two or three of them carry what as many lines of the message carry. */
  lemma {:induction false} SentWords(message: string, k: nat)
    requires k <= 3
    ensures WordsOf(Sent(message)[..k]) == WordsOf(FirstLines(Lines(message), k))
  {
    hide Split, Lines, Sent;
    var lines := Lines(message);
    var sent, first := Sent(message)[..k], FirstLines(lines, k);
    forall i | 0 <= i < k
      ensures sent[i] == if i < |first| then first[i] else ""
    {
      SentLine(message, i);
    }
    assert sent == first + sent[|first|..];
    WordsOfConcat(first, sent[|first|..]);
    SplitNothing();
    EmptyLines(sent[|first|..]);
  }

  lemma {:induction false} EmptyLines(lines: seq<string>)
    requires forall i :: 0 <= i < |lines| ==> lines[i] == ""
    ensures WordsOf(lines) == []
  {
    if lines != [] {
      EmptyLines(lines[1..]);
    }
  }

  /** The three lines that are sent carry a message of short enough words in full exactly when some lines under the
      same limit, at most three, do. */
  lemma {:induction false} ThreeLinesSuffice(message: string)
    ensures Short(Split(message)) && WordsOf(Sent(message)) == Split(message)
            <==> exists other :: |other| <= 3 && Fit(other) && WordsOf(other) == Split(message)
  {
    hide Split, Greedy, Texts, Lines, WordsOf, Short, Fit, Sent, Narrow;
    var lines := Lines(message);
    SentWords(message, 3);
    assert Sent(message)[..3] == Sent(message);
    FitsIff(message);
    if Short(Split(message)) {
      FitPrefix(lines, 3);
    }
    Lossless(message);
    if other :| |other| <= 3 && Fit(other) && WordsOf(other) == Split(message) {
      SplitsNarrow(other);
      NarrowShorts(Splits(other));
      if Split(message) != [] {
        FewestLines(message, other);
        assert FirstLines(lines, 3) == lines;
      } else {
        NoWords(lines, 3);
      }
    }
  }

  lemma FitPrefix(lines: seq<string>, k: nat)
    requires Fit(lines)
    ensures Fit(FirstLines(lines, k)) && |FirstLines(lines, k)| <= k
  {
  }

  lemma {:induction false} NoWords(lines: seq<string>, k: nat)
    requires WordsOf(lines) == []
    ensures WordsOf(FirstLines(lines, k)) == []
  {
    if k <= |lines| {
      WordsOfConcat(lines[..k], lines[k..]);
      assert lines[..k] + lines[k..] == lines;
    }
  }

  // ----- what the code does not do -----

  lemma {:induction false} TwoWords(a: string, b: string)
    requires CleanWord(a) && CleanWord(b)
    ensures Split(a + " " + b) == [a, b]
  {
    hide IsSpace, CleanWord;
    SplitWord(a);
    SplitWord(b);
    SplitSpace(b);
    assert IsSpace((" " + b)[0]) by { SpaceIsSpace(); }
    SplitConcat(a, " " + b);
    assert a + (" " + b) == a + " " + b;
  }

  lemma {:induction false} TwoWordsGreedy(a: string, b: string)
    requires |a| <= 19
    ensures Greedy([a, b], []) == if |a| + |b| <= 18 then [[a, b]] else [[a], [b]]
  {
    hide Greedy, Width;
    CleanNothing();
    WidthOne(a);
    assert [a, b][1..] == [b] && [b][1..] == [] && [] + [a] == [a] && [a] + [b] == [a, b];
    GreedyStep([a, b], [], []);
    GreedyStep([b], [a], []);
    GreedyEnd([], [b]);
    GreedyEnd([], [a, b]);
    assert [] + Greedy([b], [a]) == Greedy([b], [a]) && ([] + [[a]]) + [[b]] == [[a], [b]];
  }

  lemma {:induction false} TwoTexts(a: string, b: string)
    ensures Texts([[a], [b]]) == [a, b] && Texts([[a, b]]) == [a + " " + b]
  {
    LineOfNone();
    TextsMore([], [a]);
    TextsMore([[a]], [b]);
    TextsMore([], [a, b]);
    assert [] + [[a]] == [[a]] && [[a]] + [[b]] == [[a], [b]] && [] + [[a, b]] == [[a, b]];
    assert [a, b][..1] == [a];
  }

  /** Two words that fit the constant of 20 together with their space are broken apart all the same; with one character
      less they are not. */
  lemma {:induction false} LimitIsOneLess(a: string, b: string)
    requires CleanWord(a) && CleanWord(b)
    ensures |a| + |b| == 19 ==> |a + " " + b| == 20 && Lines(a + " " + b) == [a, b]
    ensures |a| + |b| == 18 ==> |a + " " + b| == 19 && Lines(a + " " + b) == [a + " " + b]
  {
    hide Greedy, Texts, Split, CleanWord;
    TwoWords(a, b);
    TwoTexts(a, b);
    if |a| <= 19 {
      TwoWordsGreedy(a, b);
    }
  }

  /** A message whose first word is too long starts with an empty line, which is sent in place of text. */
  lemma {:induction false} LongFirstWord(message: string)
    ensures Lines(message)[0] == "" <==> Split(message) == [] || |Split(message)[0]| >= 20
  {
    hide Split;
    var words := Split(message);
    SplitClean(message);
    CleanNothing();
    TextsPrefix(Greedy(words, []), 1);
    FirstGroup(words, []);
    var g := Greedy(words, [])[0];
    assert Greedy(words, [])[..1] == [] + [g];
    TextsMore([], g);
    LineOfNone();
    GreedyKeeps(words, []);
    if g != [] {
      JoinEnds(g);
    }
    if words != [] && |words[0]| < 20 {
      FirstGroup(words[1..], [] + [words[0]]);
    }
  }
}
