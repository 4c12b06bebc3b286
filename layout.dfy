/**
 * The host's content and the three unit layouts. The host is a sequence of
 * nodes: raw markup, an outer box holding inner units, or a " " text node.
 * Boxes are values here; styling is not modelled.
 */
module Layout {
  import opened Seqs
  import opened Tokenizer
  import opened LineGrouping

  /** An inner unit and its markup. */
  datatype Inner = Inner(html: string)

  /** An outer box and the inner units it holds, in order. */
  datatype Outer = Outer(children: seq<Inner>)

  datatype Node = Raw(html: string) | Box(outer: Outer) | Space

  /** The host's children after its markup is set to `html`. */
  function Parsed(html: string): seq<Node>
  {
    if html == "" then [] else [Raw(html)]
  }

  /** The markup of each unit, in order. */
  function Texts(units: seq<Inner>): seq<string>
  {
    seq(|units|, k requires 0 <= k < |units| => units[k].html)
  }

  /** Each box, followed by a " " text node. */
  function Interleave(boxes: seq<Outer>): (host: seq<Node>)
    ensures |host| == 2 * |boxes|
  {
    if |boxes| == 0 then [] else Interleave(boxes[..|boxes| - 1]) + [Box(boxes[|boxes| - 1]), Space]
  }

  /** Host node 2i is box i and every odd node is a separator. */
  lemma {:induction false} InterleaveAt(boxes: seq<Outer>)
    ensures forall j :: 0 <= j < 2 * |boxes| ==>
      Interleave(boxes)[j] == if j % 2 == 0 then Box(boxes[j / 2]) else Space
    decreases |boxes|
  {
    if |boxes| > 0 {
      var n := |boxes| - 1;
      InterleaveAt(boxes[..n]);
      forall j | 0 <= j < 2 * |boxes|
        ensures Interleave(boxes)[j] == if j % 2 == 0 then Box(boxes[j / 2]) else Space
      {
        if j < 2 * n {
          assert Interleave(boxes)[j] == Interleave(boxes[..n])[j];
        }
      }
    }
  }

  /** The host's element children: its boxes, in order, without text nodes. */
  function Elements(host: seq<Node>): (boxes: seq<Outer>)
    ensures |boxes| <= |host|
  {
    if |host| == 0 then []
    else
      var last := host[|host| - 1];
      Elements(host[..|host| - 1]) + if last.Box? then [last.outer] else []
  }

  /** The element children of an interleaved host are the boxes it was built from. */
  lemma {:induction false} ElementsInterleave(boxes: seq<Outer>)
    ensures Elements(Interleave(boxes)) == boxes
    decreases |boxes|
  {
    if |boxes| > 0 {
      var n := |boxes| - 1;
      var h := Interleave(boxes);
      ElementsInterleave(boxes[..n]);
      assert h[..2 * n + 1][..2 * n] == Interleave(boxes[..n]);
      assert h[..2 * n + 1] == h[..|h| - 1];
      assert boxes == boxes[..n] + [boxes[n]];
    }
  }

  // ---- words ----

  function WordBox(token: string): Outer
  {
    Outer([Inner(token)])
  }

  function WordUnits(tokens: seq<string>): seq<Inner>
  {
    seq(|tokens|, i requires 0 <= i < |tokens| => Inner(tokens[i]))
  }

  function WordBoxes(tokens: seq<string>): seq<Outer>
  {
    seq(|tokens|, i requires 0 <= i < |tokens| => WordBox(tokens[i]))
  }

  // ---- characters ----

  /** One inner unit per character, in order (`split("")` gives no unit for ""). */
  function CharUnits(word: string): seq<Inner>
  {
    seq(|word|, k requires 0 <= k < |word| => Inner([word[k]]))
  }

  function CharBoxes(tokens: seq<string>): seq<Outer>
  {
    seq(|tokens|, i requires 0 <= i < |tokens| => Outer(CharUnits(tokens[i])))
  }

  /** The character units of every token, token after token. */
  function AllChars(tokens: seq<string>): seq<Inner>
  {
    if |tokens| == 0 then [] else AllChars(tokens[..|tokens| - 1]) + CharUnits(tokens[|tokens| - 1])
  }

  // ---- lines ----

  /** A row's text: its words' markup joined by single spaces. */
  function LineText(row: seq<Inner>): string
  {
    Join(Texts(row))
  }

  /** A row's outer box: empty when the row's text is empty. */
  function LineBox(text: string): Outer
  {
    if text == "" then Outer([]) else Outer([Inner(text)])
  }

  function LineBoxes(rows: seq<seq<Inner>>): seq<Outer>
  {
    seq(|rows|, k requires 0 <= k < |rows| => LineBox(LineText(rows[k])))
  }

  /** The boxes as host children, with no separators. */
  function Boxes(boxes: seq<Outer>): seq<Node>
  {
    seq(|boxes|, k requires 0 <= k < |boxes| => Box(boxes[k]))
  }

  /** One line unit per row whose text is not empty, in row order. */
  function LineUnits(rows: seq<seq<Inner>>): (units: seq<Inner>)
    ensures |units| <= |rows|
    ensures forall u :: u in units ==> u.html != ""
  {
    if |rows| == 0 then []
    else
      var text := LineText(rows[|rows| - 1]);
      LineUnits(rows[..|rows| - 1]) + if text == "" then [] else [Inner(text)]
  }

  /** Builds a row's text word by word, a separator after every word but the last. */
  method BuildString(row: seq<Inner>) returns (built: string)
    ensures built == LineText(row)
  {
    built := "";
    for i := 0 to |row|
      invariant built == Join(Texts(row[..i])) + (if 0 < i < |row| then " " else "")
    {
      assert Texts(row[..i + 1]) == Texts(row[..i]) + [row[i].html];
      assert Texts(row[..i + 1])[..i] == Texts(row[..i]);
      built := built + row[i].html;
      if i != |row| - 1 {
        built := built + " ";
      }
    }
    assert row[..|row|] == row;
  }

  // ---- the rebuild as a value ----

  /** The six tracking sequences and the host's children after a rebuild. */
  datatype Units = Units(
    charArray: seq<Inner>, charParentArray: seq<Outer>,
    wordArray: seq<Inner>, wordParentArray: seq<Outer>,
    lineArray: seq<Inner>, lineParentArray: seq<Outer>,
    host: seq<Node>)

  predicate ValidMutation(mutation: string)
  {
    mutation == "chars" || mutation == "words" || mutation == "lines"
  }

  /** The measurements hold one top per word whenever lines are grouped. */
  predicate Measured(mutation: string, tokens: seq<string>, tops: seq<real>)
  {
    mutation == "lines" ==> |tops| == |tokens|
  }

  /** What a rebuild produces from the tokens of the pristine content. */
  function RebuildTokens(mutation: string, tokens: seq<string>, tops: seq<real>, threshold: real): Units
    requires Measured(mutation, tokens, tops)
  {
    if mutation == "chars" then
      Units(AllChars(tokens), CharBoxes(tokens), [], [], [], [], Interleave(CharBoxes(tokens)))
    else if mutation == "lines" then
      var rows := Rows(WordUnits(tokens), tops, threshold);
      Units([], [], [], [], LineUnits(rows), LineBoxes(rows), Boxes(LineBoxes(rows)))
    else
      Units([], [], WordUnits(tokens), WordBoxes(tokens), [], [], Interleave(WordBoxes(tokens)))
  }

  function Rebuild(mutation: string, content: string, tops: seq<real>, threshold: real): Units
    requires Measured(mutation, Tokenize(content), tops)
  {
    RebuildTokens(mutation, Tokenize(content), tops, threshold)
  }

  // ---- properties of the layouts ----

  /** The inner units each box holds, box by box. */
  function Children(boxes: seq<Outer>): seq<seq<Inner>>
  {
    seq(|boxes|, k requires 0 <= k < |boxes| => boxes[k].children)
  }

  lemma CharUnitsAppend(a: string, b: string)
    ensures CharUnits(a + b) == CharUnits(a) + CharUnits(b)
  {
  }

  /** The character units of all tokens are those of the tokens' concatenation. */
  lemma {:induction false} AllCharsFlatten(tokens: seq<string>)
    ensures AllChars(tokens) == CharUnits(Flatten(tokens))
    decreases |tokens|
  {
    if |tokens| > 0 {
      var n := |tokens| - 1;
      AllCharsFlatten(tokens[..n]);
      CharUnitsAppend(Flatten(tokens[..n]), tokens[n]);
    }
  }

  /** Reading the character boxes' contents in order gives the character units. */
  lemma {:induction false} CharBoxesHoldAllChars(tokens: seq<string>)
    ensures Flatten(Children(CharBoxes(tokens))) == AllChars(tokens)
    decreases |tokens|
  {
    if |tokens| > 0 {
      var n := |tokens| - 1;
      CharBoxesHoldAllChars(tokens[..n]);
      assert Children(CharBoxes(tokens))[..n] == Children(CharBoxes(tokens[..n]));
    }
  }

  /** Reading the line boxes' contents in order gives the line units. */
  lemma {:induction false} LineBoxesHoldLineUnits(rows: seq<seq<Inner>>)
    ensures Flatten(Children(LineBoxes(rows))) == LineUnits(rows)
    decreases |rows|
  {
    if |rows| > 0 {
      var n := |rows| - 1;
      LineBoxesHoldLineUnits(rows[..n]);
      assert Children(LineBoxes(rows))[..n] == Children(LineBoxes(rows[..n]));
    }
  }

  lemma {:induction false} UnspacedLength(s: string)
    ensures |Unspaced(s)| + Spaces(s) == |s|
    decreases |s|
  {
    if |s| > 0 {
      UnspacedLength(s[1..]);
      assert s == [s[0]] + s[1..];
      assert multiset(s) == multiset{s[0]} + multiset(s[1..]);
    }
  }

  /** A row's line box is empty exactly when the row is a single empty word. */
  lemma LineBoxEmpty(row: seq<Inner>)
    requires row != []
    ensures LineBox(LineText(row)).children == [] <==> row == [Inner("")]
  {
    JoinEmpty(Texts(row));
    if Texts(row) == [""] {
      assert row[0].html == Texts(row)[0];
      assert row == [Inner("")];
    }
  }

  /** A row of space-free words: tokenizing its text gives back the words. */
  lemma LineTextRoundTrip(row: seq<Inner>)
    requires row != []
    requires forall u :: u in row ==> ' ' !in u.html
    ensures Tokenize(LineText(row)) == Texts(row)
  {
    assert forall k :: 0 <= k < |row| ==> row[k] in row;
    TokenizeJoin(Texts(row));
  }

  /**
   * Words mode: one word unit and one outer box per token, box i holding
   * exactly unit i, which holds token i; the host alternates boxes and
   * separators, ending with a separator.
   */
  lemma WordsLayout(content: string, tops: seq<real>, threshold: real)
    ensures var u := Rebuild("words", content, tops, threshold);
      |u.wordArray| == |u.wordParentArray| == Spaces(content) + 1 &&
      (forall i :: 0 <= i < |u.wordArray| ==>
        u.wordArray[i] == Inner(Tokenize(content)[i]) && u.wordParentArray[i] == Outer([u.wordArray[i]])) &&
      u.host == Interleave(u.wordParentArray)
  {
    var tokens := Tokenize(content);
    assert Rebuild("words", content, tops, threshold)
      == Units([], [], WordUnits(tokens), WordBoxes(tokens), [], [], Interleave(WordBoxes(tokens)));
    TokenCount(content);
  }

  /** Words mode loses nothing: the word units' markup joined by spaces is the content. */
  lemma WordsRejoin(content: string, tops: seq<real>, threshold: real)
    ensures Join(Texts(Rebuild("words", content, tops, threshold).wordArray)) == content
  {
    var tokens := Tokenize(content);
    assert Rebuild("words", content, tops, threshold).wordArray == WordUnits(tokens);
    JoinTokenize(content);
    assert Texts(WordUnits(tokens)) == tokens;
  }

  /**
   * Chars mode: one outer box per token, box i holding one unit per character
   * of token i (none for an empty token); the character units are the
   * content's characters without the separators, and are the boxes' contents
   * read in order.
   */
  lemma CharsLayout(content: string, tops: seq<real>, threshold: real)
    ensures var u := Rebuild("chars", content, tops, threshold);
      |u.charParentArray| == Spaces(content) + 1 &&
      (forall i :: 0 <= i < |u.charParentArray| ==>
        u.charParentArray[i].children == CharUnits(Tokenize(content)[i])) &&
      u.charArray == CharUnits(Unspaced(content)) &&
      |u.charArray| == |content| - Spaces(content) == |Flatten(Tokenize(content))| &&
      Flatten(Children(u.charParentArray)) == u.charArray &&
      u.host == Interleave(u.charParentArray)
  {
    var tokens := Tokenize(content);
    assert Rebuild("chars", content, tops, threshold)
      == Units(AllChars(tokens), CharBoxes(tokens), [], [], [], [], Interleave(CharBoxes(tokens)));
    TokenCount(content);
    AllCharsFlatten(tokens);
    TokensAreUnspaced(content);
    UnspacedLength(content);
    CharBoxesHoldAllChars(tokens);
  }

  /** The rows the line grouper forms from the content's word units. */
  function LineRows(content: string, tops: seq<real>, threshold: real): seq<seq<Inner>>
    requires |tops| == |Tokenize(content)|
  {
    Rows(WordUnits(Tokenize(content)), tops, threshold)
  }

  /**
   * For rows of space-free words, each line box is empty exactly when its row
   * is a single empty word, and otherwise holds one unit whose text
   * re-tokenizes to the row's words.
   */
  lemma LineBoxesOfRows(rows: seq<seq<Inner>>)
    requires forall k :: 0 <= k < |rows| ==> rows[k] != []
    requires forall k, u: Inner :: 0 <= k < |rows| && u in rows[k] ==> ' ' !in u.html
    ensures forall k :: 0 <= k < |rows| ==>
      (LineBoxes(rows)[k].children == [] <==> rows[k] == [Inner("")])
    ensures forall k :: 0 <= k < |rows| && LineBoxes(rows)[k].children != [] ==>
      LineBoxes(rows)[k].children == [Inner(LineText(rows[k]))] &&
      Tokenize(LineText(rows[k])) == Texts(rows[k])
  {
    forall k | 0 <= k < |rows|
      ensures LineBoxes(rows)[k].children == [] <==> rows[k] == [Inner("")]
      ensures LineBoxes(rows)[k].children != [] ==> Tokenize(LineText(rows[k])) == Texts(rows[k])
    {
      LineBoxEmpty(rows[k]);
      LineTextRoundTrip(rows[k]);
    }
  }

  /**
   * Lines mode: the rows cover the word units in order; the host holds one
   * outer box per row and no separators; a box is empty exactly when its row
   * is a single empty word, and otherwise holds one unit whose text
   * re-tokenizes to the row's words; the line units are the boxes' contents,
   * so there are never more of them than boxes.
   */
  lemma LinesLayout(content: string, tops: seq<real>, threshold: real)
    requires |tops| == |Tokenize(content)|
    ensures var rows := LineRows(content, tops, threshold);
      var u := Rebuild("lines", content, tops, threshold);
      && Flatten(rows) == WordUnits(Tokenize(content))
      && u.lineParentArray == LineBoxes(rows)
      && |u.lineParentArray| == |rows|
      && u.host == Boxes(u.lineParentArray)
      && (forall k :: 0 <= k < |rows| ==>
            (u.lineParentArray[k].children == [] <==> rows[k] == [Inner("")]))
      && (forall k :: 0 <= k < |rows| && u.lineParentArray[k].children != [] ==>
            u.lineParentArray[k].children == [Inner(LineText(rows[k]))] &&
            Tokenize(LineText(rows[k])) == Texts(rows[k]))
      && Flatten(Children(u.lineParentArray)) == u.lineArray
      && |u.lineArray| <= |u.lineParentArray|
  {
    var words := WordUnits(Tokenize(content));
    var rows := LineRows(content, tops, threshold);
    RowsPartition(words, tops, threshold);
    LineBoxesHoldLineUnits(rows);
    forall k, u: Inner | 0 <= k < |rows| && u in rows[k] ensures ' ' !in u.html {
      FlattenMember(rows, k, u);
    }
    LineBoxesOfRows(rows);
  }

  /**
   * After a rebuild in a valid mode only the active granularity's sequences
   * are non-empty, and its outer boxes are (there is always a token).
   */
  lemma OnlyActiveGranularity(mutation: string, content: string, tops: seq<real>, threshold: real)
    requires ValidMutation(mutation)
    requires Measured(mutation, Tokenize(content), tops)
    ensures var u := Rebuild(mutation, content, tops, threshold);
      (mutation != "chars" ==> u.charArray == [] && u.charParentArray == []) &&
      (mutation != "words" ==> u.wordArray == [] && u.wordParentArray == []) &&
      (mutation != "lines" ==> u.lineArray == [] && u.lineParentArray == []) &&
      (mutation == "chars" ==> u.charParentArray != []) &&
      (mutation == "words" ==> u.wordArray != [] && u.wordParentArray != []) &&
      (mutation == "lines" ==> u.lineParentArray != [])
  {
  }

  /** `"ab cd"` in chars mode: two boxes and the four characters. */
  lemma CharsExample(tops: seq<real>, threshold: real)
    ensures var u := Rebuild("chars", "ab cd", tops, threshold);
      |u.charParentArray| == 2 && Texts(u.charArray) == ["a", "b", "c", "d"]
  {
    TokenizeTwoWords();
    CharsOfTwoWords('a', 'b', 'c', 'd');
  }

  lemma CharsOfTwoWords(a: char, b: char, c: char, d: char)
    ensures AllChars([[a, b], [c, d]]) == [Inner([a]), Inner([b]), Inner([c]), Inner([d])]
  {
    var tokens := [[a, b], [c, d]];
    assert AllChars(tokens) == AllChars([[a, b]]) + CharUnits([c, d]) by {
      assert tokens[..1] == [[a, b]];
    }
    assert AllChars([[a, b]]) == CharUnits([a, b]) by {
      assert [[a, b]][..0] == [];
    }
  }

  lemma TokenizeThreeWords(w1: string, w2: string, w3: string)
    requires ' ' !in w1 && ' ' !in w2 && ' ' !in w3
    ensures Tokenize(w1 + " " + w2 + " " + w3) == [w1, w2, w3]
  {
    var ts := [w1, w2, w3];
    assert Join(ts) == w1 + " " + w2 + " " + w3 by {
      assert ts[..2] == [w1, w2];
      assert [w1, w2][..1] == [w1];
      assert Join([w1, w2]) == Join([w1]) + " " + w2;
      assert Join(ts) == Join([w1, w2]) + " " + w3;
    }
    TokenizeJoin(ts);
  }

  /**
   * Three space-free words measured at tops 10, 10 and 34 with threshold 4
   * give two lines: the first two words joined by a space, and the third.
   */
  lemma LinesExample(w1: string, w2: string, w3: string)
    requires ' ' !in w1 && ' ' !in w2 && ' ' !in w3
    requires w3 != ""
    ensures Tokenize(w1 + " " + w2 + " " + w3) == [w1, w2, w3]
    ensures Texts(Rebuild("lines", w1 + " " + w2 + " " + w3, [10.0, 10.0, 34.0], 4.0).lineArray) == [w1 + " " + w2, w3]
    ensures |Rebuild("lines", w1 + " " + w2 + " " + w3, [10.0, 10.0, 34.0], 4.0).lineParentArray| == 2
  {
    var a, b, c := Inner(w1), Inner(w2), Inner(w3);
    TokenizeThreeWords(w1, w2, w3);
    assert WordUnits([w1, w2, w3]) == [a, b, c];
    GroupingExample(a, b, c);
    var rows := [[a, b], [c]];
    assert LineText(rows[0]) == w1 + " " + w2 by {
      assert Texts(rows[0]) == [w1, w2];
      assert [w1, w2][..1] == [w1];
      assert Join([w1, w2]) == Join([w1]) + " " + w2;
    }
    assert LineText(rows[1]) == w3 by {
      assert Texts(rows[1]) == [w3];
    }
    assert rows[..1] == [rows[0]];
    assert rows[..1][..0] == [];
    assert LineUnits(rows) == [Inner(w1 + " " + w2), Inner(w3)];
  }
}
