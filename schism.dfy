/**
 * The splitter instance: it keeps the pristine content, rebuilds the host's
 * units from it on every split, and restores it on destroy. Layout
 * measurements come in as data: one top per word and the host's font size.
 */
module Lifecycle {
  import opened Tokenizer
  import opened LineGrouping
  import opened Layout

  class Schism {
    /** The granularity; fixed for the instance's lifetime. */
    const mutation: string
    /** The host's markup when the instance was made. */
    const originalContent: string

    /** The host's children. */
    var host: seq<Node>
    /** The tokens of the last split. */
    var splitWords: seq<string>

    var charArray: seq<Inner>
    var charParentArray: seq<Outer>
    var wordArray: seq<Inner>
    var wordParentArray: seq<Outer>
    var lineArray: seq<Inner>
    var lineParentArray: seq<Outer>

    /** The six tracking sequences and the host's children. */
    function State(): Units
      reads this
    {
      Units(charArray, charParentArray, wordArray, wordParentArray, lineArray, lineParentArray, host)
    }

    /** Nothing tracked and the host emptied: where every split starts building. */
    predicate Cleared()
      reads this
    {
      State() == Units([], [], [], [], [], [], [])
    }

    /**
     * Captures the content and, for a recognised granularity, splits it. On
     * any other granularity the instance stays inert: nothing is tracked and
     * the host keeps its content.
     */
    constructor (content: string, mutation: string, tops: seq<real>, fontSize: real)
      requires Measured(mutation, Tokenize(content), tops)
      ensures this.mutation == mutation && originalContent == content
      ensures ValidMutation(mutation) ==> State() == Rebuild(mutation, content, tops, LineThreshold(fontSize))
      ensures !ValidMutation(mutation) ==> State() == Units([], [], [], [], [], [], Parsed(content))
    {
      this.mutation := mutation;
      originalContent := content;
      host := Parsed(content);
      splitWords := [];
      charArray, charParentArray := [], [];
      wordArray, wordParentArray := [], [];
      lineArray, lineParentArray := [], [];
      new;
      if !ValidMutation(mutation) {
        return;
      }
      Split(tops, fontSize);
    }

    /**
     * Resets every tracking sequence, restores the pristine content and
     * rebuilds from it; the result depends on nothing the previous split left.
     */
    method Split(tops: seq<real>, fontSize: real)
      requires Measured(mutation, Tokenize(originalContent), tops)
      modifies this
      ensures splitWords == Tokenize(originalContent)
      ensures State() == Rebuild(mutation, originalContent, tops, LineThreshold(fontSize))
    {
      charArray, charParentArray := [], [];
      wordArray, wordParentArray := [], [];
      lineArray, lineParentArray := [], [];
      host := Parsed(originalContent);
      // Reading the markup back gives the content just written.
      splitWords := Tokenize(originalContent);
      host := Parsed("");
      Init(tops, fontSize);
    }

    /** Builds the word units, then refines them into characters or lines. */
    method Init(tops: seq<real>, fontSize: real)
      requires Cleared()
      requires Measured(mutation, splitWords, tops)
      modifies this`host, this`charArray, this`charParentArray, this`wordArray,
        this`wordParentArray, this`lineArray, this`lineParentArray
      ensures State() == RebuildTokens(mutation, splitWords, tops, LineThreshold(fontSize))
    {
      BuildWords();
      if mutation == "chars" {
        SplitChars();
      }
      if mutation == "lines" {
        SplitLines(tops, fontSize);
      }
    }

    /**
     * Wraps each token in an inner unit inside an outer box, appends the box
     * and a " " to the host, and tracks both.
     */
    method BuildWords()
      requires host == [] && wordArray == [] && wordParentArray == []
      modifies this`host, this`wordArray, this`wordParentArray
      ensures wordArray == WordUnits(splitWords)
      ensures wordParentArray == WordBoxes(splitWords)
      ensures host == Interleave(wordParentArray)
    {
      for i := 0 to |splitWords|
        invariant wordArray == WordUnits(splitWords[..i])
        invariant wordParentArray == WordBoxes(splitWords[..i])
        invariant host == Interleave(wordParentArray)
      {
        var wordInner := Inner(splitWords[i]);
        var wordOuter := Outer([wordInner]);
        host := host + [Box(wordOuter), Space];
        wordArray := wordArray + [wordInner];
        wordParentArray := wordParentArray + [wordOuter];
        assert wordParentArray[..i] == WordBoxes(splitWords[..i]);
      }
      assert splitWords[..|splitWords|] == splitWords;
    }

    /**
     * Empties each word's outer box and refills it with one inner unit per
     * character; tracks the character units and one outer box per word.
     */
    method SplitChars()
      requires wordArray == WordUnits(splitWords) && wordParentArray == WordBoxes(splitWords)
      requires host == Interleave(wordParentArray)
      requires charArray == [] && charParentArray == []
      modifies this`host, this`wordArray, this`wordParentArray, this`charArray, this`charParentArray
      ensures wordArray == [] && wordParentArray == []
      ensures charArray == AllChars(splitWords)
      ensures charParentArray == CharBoxes(splitWords)
      ensures host == Interleave(charParentArray)
    {
      var children := ElementChildren();
      ghost var words := splitWords;
      wordArray, wordParentArray := [], [];
      if |children| > 0 {
        SplitChildren(words, children);
      }
    }

    /** The host's element children; under the word layout, its word boxes. */
    method ElementChildren() returns (children: seq<Outer>)
      requires host == Interleave(wordParentArray)
      ensures children == wordParentArray
    {
      children := Elements(host);
      ElementsInterleave(wordParentArray);
    }

    /** Refills every element child of the host, in order, with its word's characters. */
    method SplitChildren(ghost words: seq<string>, children: seq<Outer>)
      requires children == WordBoxes(words) && host == Interleave(children)
      requires charArray == [] && charParentArray == []
      modifies this`host, this`charArray, this`charParentArray
      ensures charArray == AllChars(words) && charParentArray == CharBoxes(words)
      ensures host == Interleave(charParentArray)
    {
      assert CharBoxes(words[..0]) + children[0..] == children;
      for k := 0 to |children|
        invariant charArray == AllChars(words[..k])
        invariant charParentArray == CharBoxes(words[..k])
        invariant host == Interleave(CharBoxes(words[..k]) + children[k..])
      {
        SplitChild(words, children, k);
      }
      assert words[..|words|] == words;
      assert CharBoxes(words) + children[|children|..] == CharBoxes(words);
    }

    /**
     * Refills element child k of the host with its word's characters and
     * tracks it; the children before it are already character boxes.
     */
    method SplitChild(ghost words: seq<string>, children: seq<Outer>, k: nat)
      requires children == WordBoxes(words) && k < |children|
      requires charArray == AllChars(words[..k]) && charParentArray == CharBoxes(words[..k])
      requires host == Interleave(CharBoxes(words[..k]) + children[k..])
      modifies this`host, this`charArray, this`charParentArray
      ensures charArray == AllChars(words[..k + 1]) && charParentArray == CharBoxes(words[..k + 1])
      ensures host == Interleave(CharBoxes(words[..k + 1]) + children[k + 1..])
    {
      var c := children[k];
      var childNode := c.children[0];
      var splitWord := childNode.html;
      c := FillChars(splitWord);
      // Under the word layout, element child k is host node 2k.
      CharsStep(words, children, k);
      host := host[2 * k := Box(c)];
      charParentArray := charParentArray + [c];
    }

    /**
     * Empties a word's box and appends one inner unit per character, tracking
     * each unit as it is made.
     */
    method FillChars(splitWord: string) returns (c: Outer)
      modifies this`charArray
      ensures c == Outer(CharUnits(splitWord))
      ensures charArray == old(charArray) + CharUnits(splitWord)
    {
      c := Outer([]);
      for p := 0 to |splitWord|
        invariant c == Outer(CharUnits(splitWord[..p]))
        invariant charArray == old(charArray) + CharUnits(splitWord[..p])
      {
        var charInner := Inner([splitWord[p]]);
        c := Outer(c.children + [charInner]);
        charArray := charArray + [charInner];
        assert CharUnits(splitWord[..p + 1]) == CharUnits(splitWord[..p]) + [charInner];
      }
      assert splitWord[..|splitWord|] == splitWord;
    }

    /**
     * Groups the words into rows by their tops, drops the word units and
     * rebuilds the host with one outer box per row, holding the row's text
     * unless that text is empty.
     */
    method SplitLines(tops: seq<real>, fontSize: real)
      requires |tops| == |splitWords|
      requires wordArray == WordUnits(splitWords) && wordParentArray == WordBoxes(splitWords)
      requires lineArray == [] && lineParentArray == []
      modifies this`host, this`wordArray, this`wordParentArray, this`lineArray, this`lineParentArray
      ensures wordArray == [] && wordParentArray == []
      ensures lineArray == LineUnits(Rows(WordUnits(splitWords), tops, LineThreshold(fontSize)))
      ensures lineParentArray == LineBoxes(Rows(WordUnits(splitWords), tops, LineThreshold(fontSize)))
      ensures host == Boxes(lineParentArray)
    {
      var lineThreshold := LineThreshold(fontSize);
      var wordsInEachLine := GroupRows(wordArray, tops, lineThreshold);
      ghost var rows := Rows(WordUnits(splitWords), tops, LineThreshold(fontSize));
      assert wordsInEachLine == rows;
      wordArray, wordParentArray := [], [];
      host := Parsed("");
      AppendLines(wordsInEachLine);
    }

    /** Appends one outer box per row, in order, to the emptied host. */
    method AppendLines(wordsInEachLine: seq<seq<Inner>>)
      requires host == [] && lineArray == [] && lineParentArray == []
      modifies this`host, this`lineArray, this`lineParentArray
      ensures lineArray == LineUnits(wordsInEachLine) && lineParentArray == LineBoxes(wordsInEachLine)
      ensures host == Boxes(lineParentArray)
    {
      for k := 0 to |wordsInEachLine|
        invariant lineArray == LineUnits(wordsInEachLine[..k])
        invariant lineParentArray == LineBoxes(wordsInEachLine[..k])
        invariant host == Boxes(lineParentArray)
      {
        AppendLine(wordsInEachLine[k]);
        LinesStep(wordsInEachLine, k);
      }
      assert wordsInEachLine[..|wordsInEachLine|] == wordsInEachLine;
    }

    /**
     * Appends an empty outer box for one row to the host and the tracking
     * sequence, then fills it with the row's text unless that text is empty.
     */
    method AppendLine(wa: seq<Inner>)
      requires host == Boxes(lineParentArray)
      modifies this`host, this`lineArray, this`lineParentArray
      ensures lineParentArray == old(lineParentArray) + [LineBox(LineText(wa))]
      ensures lineArray == old(lineArray) + (if LineText(wa) == "" then [] else [Inner(LineText(wa))])
      ensures host == Boxes(lineParentArray)
    {
      var lineOuter := Outer([]);
      host := host + [Box(lineOuter)];
      lineParentArray := lineParentArray + [lineOuter];
      var builtString := BuildString(wa);
      if builtString != "" {
        var lineInner := Inner(builtString);
        lineOuter := Outer(lineOuter.children + [lineInner]);
        // The host and lineParentArray share this outer box.
        host := host[|host| - 1 := Box(lineOuter)];
        lineParentArray := lineParentArray[|lineParentArray| - 1 := lineOuter];
        lineArray := lineArray + [lineInner];
        assert lineOuter == LineBox(builtString);
      }
    }

    /** Restores the pristine content; the tracking sequences are left as they are. */
    method Destroy()
      modifies this`host
      ensures host == Parsed(originalContent)
    {
      host := Parsed(originalContent);
    }
  }

  /** Replacing box k of an interleaved host is replacing host node 2k. */
  lemma ReplaceBox(boxes: seq<Outer>, k: nat, b: Outer)
    requires k < |boxes|
    ensures Interleave(boxes)[2 * k := Box(b)] == Interleave(boxes[k := b])
  {
    var h, h' := Interleave(boxes)[2 * k := Box(b)], Interleave(boxes[k := b]);
    InterleaveAt(boxes);
    InterleaveAt(boxes[k := b]);
    forall j | 0 <= j < |h| ensures h[j] == h'[j] {
      if j % 2 == 0 && j != 2 * k {
        assert j / 2 != k;
      }
    }
  }

  /** One step of the character layout: word box k of the host gives way to its character box. */
  lemma CharsStep(words: seq<string>, boxes: seq<Outer>, k: nat)
    requires k < |words| == |boxes|
    ensures Interleave(CharBoxes(words[..k]) + boxes[k..])[2 * k := Box(Outer(CharUnits(words[k])))]
      == Interleave(CharBoxes(words[..k + 1]) + boxes[k + 1..])
    ensures CharBoxes(words[..k + 1]) == CharBoxes(words[..k]) + [Outer(CharUnits(words[k]))]
    ensures AllChars(words[..k + 1]) == AllChars(words[..k]) + CharUnits(words[k])
  {
    assert words[..k + 1][..k] == words[..k];
    var before := CharBoxes(words[..k]) + boxes[k..];
    ReplaceBox(before, k, Outer(CharUnits(words[k])));
    assert before[k := Outer(CharUnits(words[k]))] == CharBoxes(words[..k + 1]) + boxes[k + 1..];
  }

  /** One step of the line layout: row k adds its box, and its unit when its text is not empty. */
  lemma LinesStep(rows: seq<seq<Inner>>, k: nat)
    requires k < |rows|
    ensures LineBoxes(rows[..k + 1]) == LineBoxes(rows[..k]) + [LineBox(LineText(rows[k]))]
    ensures LineUnits(rows[..k + 1])
      == LineUnits(rows[..k]) + (if LineText(rows[k]) == "" then [] else [Inner(LineText(rows[k]))])
  {
    assert rows[..k + 1][..k] == rows[..k];
  }

  /**
   * Two splits in a row with the same measurements leave the same units and
   * the same host.
   */
  method SplitTwice(s: Schism, tops: seq<real>, fontSize: real) returns (first: Units, second: Units)
    requires Measured(s.mutation, Tokenize(s.originalContent), tops)
    modifies s
    ensures first == second
  {
    s.Split(tops, fontSize);
    first := s.State();
    s.Split(tops, fontSize);
    second := s.State();
  }

  /** An unrecognised granularity leaves the instance inert and the host untouched. */
  method InertOnUnknownMutation(content: string) returns (s: Schism)
    ensures s.State() == Units([], [], [], [], [], [], Parsed(content))
  {
    s := new Schism(content, "paragraphs", [], 16.0);
  }
}
