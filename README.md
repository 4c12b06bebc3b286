# schism text splitter, modelled in Dafny

schism splits the markup of a host element into animatable units. It splits
into words, then optionally refines the words into characters or groups them
into visual lines. Each unit is an *inner* span wrapped in an *outer* span.
The splitter keeps six tracking lists for the three granularities:
`charArray`/`charParentArray`, `wordArray`/`wordParentArray` and
`lineArray`/`lineParentArray`. A split always starts again from the
pristine content captured at construction, and `destroy` puts that content
back.

The model:

- `seqs.dfy` (`Seqs`): `Flatten` and its lemmas.
- `tokenizer.dfy` (`Tokenizer`): `split(" ")` as `Tokenize`, with its inverse `Join`.
- `line_grouping.dfy` (`LineGrouping`): the line-grouping walk.
  - `Rows` is the specification function.
  - `GroupRows` is the loop that computes it.
- `layout.dfy` (`Layout`):
  - The host is a sequence of nodes: raw markup, an outer box holding inner units, or a `" "` text node.
  - `Rebuild` states, as a value, what one split produces in each mode.
  - The layout lemmas state the properties of that value.
- `schism.dfy` (`Lifecycle`): the `Schism` class.
  - It holds the six lists and the host's children as sequence fields.
  - `Split` and `Init` are proved to reach the state `Rebuild` describes.
  - The helper methods (`BuildWords`, `SplitChars`, `SplitChildren`, `SplitChild`, `FillChars`, `SplitLines`, `AppendLines`, `AppendLine`) each prove their own step. `BuildWords`, `FillChars`, `SplitChildren`, `AppendLines`, `GroupRows` and `Layout.BuildString` loop, where the source's `forEach` calls do.
  - `Destroy` restores the pristine host content.
  - The constructor splits in a valid mode and leaves everything untouched otherwise.

Layout measurements are inputs:

- `tops` holds one vertical offset per word, in word order.
- `fontSize` is the host's font size; the line threshold is a fifth of it.

Setting the host's markup to a string and reading it back gives the same
string.

## Model

| member | source | states |
|---|---|---|
| Tokenizer.Tokenize | schism.js:63 | Splitting on `" "` yields at least one token, and no token contains a space |
| Tokenizer.TokenCount | schism.js:63 | There is exactly one token more than there are spaces in the content |
| Tokenizer.JoinTokenize | schism.js:63 | Joining the tokens with single spaces gives back the content, so nothing is lost or collapsed |
| Tokenizer.TokenizeJoin | schism.js:63 | Splitting a space-joined list of space-free tokens gives back that list |
| Tokenizer.TokensAreUnspaced | schism.js:63 | The tokens, concatenated, are the content's non-space characters in order |
| Tokenizer.TokenizeDoubleSpace | schism.js:63 | Two consecutive spaces produce an empty token between them (`"a  b"` gives `["a", "", "b"]`) |
| Tokenizer.TokenizeTwoWords | schism.js:63 | `"ab cd"` gives `["ab", "cd"]` |
| Tokenizer.JoinEmpty | schism.js:193-202 | A row's joined text is `""` exactly when the row is the single empty word |
| LineGrouping.LineThreshold | schism.js:167 | The threshold is positive exactly when the font size is, and then smaller than it |
| LineGrouping.LineOffset | schism.js:147-179 | `lineOffset` is still null exactly when no word has been walked |
| LineGrouping.Rows | schism.js:168-179 | Every row is non-empty, there are no more rows than words, and there are none only when there are no words |
| LineGrouping.RowsPartition | schism.js:168-179 | Flattening the rows gives back the words in order |
| LineGrouping.RowsShape | schism.js:171-179 | How the words are cut into rows depends only on their tops |
| LineGrouping.OffsetIsRowTop | schism.js:173-174 | After each word, `lineOffset` is the top of the first word of the open (last) row |
| LineGrouping.RowsRule | schism.js:173-178 | A word lies less than the threshold below its row's first word; a new row's first word lies at least the threshold below the previous row's first word (signed comparison) |
| LineGrouping.RowTopsDescend | schism.js:173 | With a positive threshold, each row starts strictly lower than the one before, so a word above `lineOffset` never starts a row |
| LineGrouping.GroupRows | schism.js:167-179 | The walk that advances `lineOffset` and the open row word by word produces exactly `Rows` |
| LineGrouping.GroupingExample | schism.js:171-179 | Tops 10, 10, 34 with threshold 4 group three words as `[[w1, w2], [w3]]` |
| Layout.Interleave | schism.js:103-104 | Appending a box and a `" "` per word gives a host twice as long as the word list |
| Layout.InterleaveAt | schism.js:103-104 | Host node 2i is word box i and every odd node is a `" "`, including after the last word |
| Layout.ElementsInterleave | schism.js:112 | The host's element children under the word layout are exactly the word boxes, in order |
| Layout.LineUnits | schism.js:202-209 | There are never more line units than rows, and no line unit's markup is empty |
| Layout.BuildString | schism.js:193-200 | Appending each word's markup, with a space after every word but the last, gives the row's words joined by single spaces |
| Layout.LineTextRoundTrip | schism.js:193-200 | Splitting a row's text on spaces gives back the row's words |
| Layout.LineBoxEmpty | schism.js:202-209 | A row's outer box stays empty exactly when the row is the single empty word |
| Layout.AllCharsFlatten | schism.js:119-136 | The character units of all tokens are one unit per character of the tokens' concatenation |
| Layout.CharBoxesHoldAllChars | schism.js:119-139 | Reading the character boxes' contents in order gives `charArray` |
| Layout.LineBoxesHoldLineUnits | schism.js:188-210 | Reading the line boxes' contents in order gives `lineArray` |
| Layout.UnspacedLength | schism.js:63 | The content's non-space characters plus its spaces make up its whole length |
| Layout.WordsLayout | schism.js:96-108 | Words mode: both word lists have one entry per token; `wordArray[i]` holds token i; `wordParentArray[i]` holds exactly `wordArray[i]`; the host is box, `" "`, box, `" "`, … |
| Layout.WordsRejoin | schism.js:96-108 | The word units' markup, joined by spaces, is the content |
| Layout.CharsLayout | schism.js:111-140 | Chars mode: one box per token, in order. Box i holds exactly token i's characters (none for an empty token). `charArray` is the content's non-space characters, one unit each, so its length is the sum of the token lengths. It equals the boxes' contents read in order. The host is box, `" "`, … |
| Layout.LineBoxesOfRows | schism.js:188-210 | A line box is empty exactly when its row is the single empty word. Otherwise it holds one unit whose text splits back into the row's words |
| Layout.LinesLayout | schism.js:143-210 | Lines mode: the rows cover the words in order, and the host holds one box per row with no spaces. A box is empty exactly for a single-empty-word row; otherwise it holds the row's joined text. `lineArray` is the boxes' contents, so it is never longer than `lineParentArray` |
| Layout.OnlyActiveGranularity | schism.js:50-57 | After a split in a valid mode, only the active granularity's lists are non-empty, and its outer boxes exist |
| Layout.CharsExample | schism.js:119-139 | `"ab cd"` in chars mode gives two boxes and the units `a`, `b`, `c`, `d` |
| Layout.LinesExample | schism.js:167-210 | Three space-free words at tops 10, 10, 34 with threshold 4 give two lines: the first two words joined by a space, and the third |
| Lifecycle.Schism.constructor | schism.js:9-44 | In a valid mode the instance is split. In any other mode all six lists stay empty and the host keeps its content |
| Lifecycle.Schism.Split | schism.js:50-91 | Resets the lists, restores the pristine content and re-splits it; the new state depends only on the content, the mode and the measurements |
| Lifecycle.Schism.Init | schism.js:93-212 | Builds words, then refines them into characters or lines, reaching `Rebuild`'s state for the mode |
| Lifecycle.Schism.BuildWords | schism.js:96-108 | Appends one box and one `" "` per token, tracking each inner and outer unit |
| Lifecycle.Schism.SplitChars | schism.js:111-141 | Empties the word lists and turns every word box into its character box, in place in the host |
| Lifecycle.Schism.ElementChildren | schism.js:112 | The host's element children are the word boxes |
| Lifecycle.Schism.SplitChildren | schism.js:118-140 | Every element child, in order, is refilled with its characters and tracked |
| Lifecycle.Schism.SplitChild | schism.js:119-138 | Child k is replaced by its character box; the character lists grow by that word's characters |
| Lifecycle.Schism.FillChars | schism.js:121-136 | Refilling one box appends one unit per character (Unicode scalar value) to the box and to `charArray` |
| Lifecycle.Schism.SplitLines | schism.js:143-187 | Groups the words by their tops, empties the word lists and the host, then appends the line boxes |
| Lifecycle.Schism.AppendLines | schism.js:188-210 | One box per row, in order; `lineArray` gets each non-empty row text |
| Lifecycle.Schism.AppendLine | schism.js:189-209 | Appends one row's box, filled with its text unless that text is empty, to the host and to `lineParentArray` |
| Lifecycle.Schism.Destroy | schism.js:259-260 | The host's content is the pristine content again |
| Lifecycle.SplitTwice | schism.js:50-60 | Two successive splits with the same measurements give identical lists and host |
| Lifecycle.InertOnUnknownMutation | schism.js:32-41 | Constructing with an unknown mode leaves all lists empty and the host untouched |

## Left out

- DOM element creation, attributes and styles (schism.js:66-85), including the `overflow` option. Boxes are values here, so whether a host entry and a tracking list entry are the same object is not modelled. `AppendLine` updates both copies where the source changes one shared span.
- Reading and writing `innerHTML` is identity on strings. Entity escaping, and markup that the browser would parse into elements, are browser behaviour.
- Measurement (schism.js:144-165, 172, 214-221) becomes inputs: the tops of the words and the host's font size. In lines mode there must be one top per word; the source measures every word, so its inputs always meet this.
- `LineGrouping.LineThreshold` computes `fontSize * 0.2` exactly, in real arithmetic. The source uses double-precision floating point.
- Resize handling (schism.js:46-47, 224-247): the window listener, the `ResizeObserver` and the debounce timer. The model exposes `Split` directly instead. The same goes for the listener removal and observer disconnection in `destroy` (schism.js:251-257). That removal passes a freshly bound function, so it removes nothing.
- The missing-target guard (schism.js:30). schism.js:17 already dereferences the target, so a missing target fails before the guard is reached.
- The error message printed for an unknown mode (schism.js:37-39); only the early return is modelled.
- The default mode `"words"` (schism.js:11): the constructor takes the mode explicitly.
- The build configuration (build.mjs) is not part of this model.
- Lifecycle.Schism.FillChars: JavaScript's `split("")` (schism.js:122) yields UTF-16 code units, while a Dafny `char` is a Unicode scalar value. A character outside the Basic Multilingual Plane (an emoji, say) becomes two units, each holding a lone surrogate, in the source, but one unit here. `Layout.CharUnits` and `Layout.CharsLayout`, and with them the count of `charArray` as the content's non-space characters, count scalar values, not code units.
