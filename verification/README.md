# Tag editor code panel and tag card — a Dafny model

This project models the self-contained logic of the prompt tag editor's
code panel (`BlockCodeMirror`) and tag card (`TagCard`):

- **UnderLine** (module `UnderLine`): the text transform behind the
  UnderLine button, `_.trim(_.replace(text, /[^\S\n]/g, '_'))`, modelled
  by `UnderLine.Transform`. Every whitespace character other than a line
  feed becomes one `_`. Then lodash
  `trim` strips leading and trailing whitespace. After the replacement that
  can only be line feeds. The model proves three things. The transform
  equals "strip the outer line feeds, then replace". It keeps every
  non-whitespace character and every interior line feed in place, shifted
  by the same amount. And it is idempotent.
- **Dirty flag** (module `BlockCodeMirror`): the pair
  `(inputText, prevInputText)`. Typing sets only `inputText`. Every
  button that rewrites the text goes through `setNextInputText`, which
  sets both. The "* Not Yet Refresh" label and the red Split/Min labels
  appear exactly while the two differ. Sequences of user events are
  modelled by `Run`.
- **Tag card** (module `TagCard`): lodash `truncate` with length 16 and
  omission `...`, over sequences of Unicode symbols. Also the card's
  initial weights (1 and 0).

The whitespace class is JavaScript's `\s`. Both the regex and lodash
`trim` use it. The general lemmas rely only on the line feed being
whitespace and `_` not being whitespace. The contract of `UnderLine.IsBlank`
and the two example lemmas also use that space, tab and carriage return are
whitespace and ASCII letters are not.

The atom-list serializer `simpleTagsToCode` is not part of this model.
Every operation that uses it takes it as a function parameter `toCode`.

UnderLine does not collapse runs of blanks and does not trim underscores:
`UnderLine.UnderLineRunExample` turns a run of two blanks into two
underscores, and `UnderLine.UnderLineKeepsOuterUnderscores` shows that
underscores at either end are kept.

## Model

| member | source | states |
|---|---|---|
| UnderLine.IsWhitespace | src/views/modules/TagEditor/components/BlockCodeMirror.tsx:82 | the whitespace class of the regex and of lodash `trim` contains space, tab, line feed and carriage return, excludes `_`, letters and digits, and lies within the Basic Multilingual Plane |
| UnderLine.IsBlank | src/views/modules/TagEditor/components/BlockCodeMirror.tsx:82 | the class `[^\S\n]` is whitespace only, matches space, tab and carriage return, and matches neither a line feed nor `_` |
| UnderLine.Underscore | src/views/modules/TagEditor/components/BlockCodeMirror.tsx:82 | a replaced character is whitespace exactly when the original was a line feed, and is never a non-newline whitespace |
| UnderLine.ReplaceBlanks | src/views/modules/TagEditor/components/BlockCodeMirror.tsx:82 | the replacement is one-for-one: same length, each non-newline whitespace becomes `_` in place, every other character stays in place, and the only whitespace left is the line feeds of the input |
| UnderLine.TrimmedEnd | src/views/modules/TagEditor/components/BlockCodeMirror.tsx:82 | lodash trim's backward walk stops just past the last non-whitespace character, having passed over whitespace only |
| UnderLine.TrimmedStart | src/views/modules/TagEditor/components/BlockCodeMirror.tsx:82 | lodash trim's forward walk stops at the first non-whitespace character, having passed over whitespace only |
| UnderLine.Trim | src/views/modules/TagEditor/components/BlockCodeMirror.tsx:82 | lodash trim never lengthens the text, leaves no whitespace at either end, and gives the empty string exactly when the text is all whitespace |
| UnderLine.TrimIsTrimOf | src/views/modules/TagEditor/components/BlockCodeMirror.tsx:82 | lodash trim removes a whitespace-only prefix and a whitespace-only suffix and keeps the text between them |
| UnderLine.TrimUnique | src/views/modules/TagEditor/components/BlockCodeMirror.tsx:82 | any infix with whitespace-only text on both sides and no whitespace at its own ends is the one lodash trim returns |
| UnderLine.TrimCharacterized | src/views/modules/TagEditor/components/BlockCodeMirror.tsx:82 | lodash trim is exactly the unique infix of the text that has whitespace-only text on both sides and no whitespace at its own ends |
| UnderLine.Transform | src/views/modules/TagEditor/components/BlockCodeMirror.tsx:82 | the UnderLine output is never longer than the input, contains no whitespace other than line feeds, and neither starts nor ends with a line feed |
| UnderLine.NewlinesEnd | src/views/modules/TagEditor/components/BlockCodeMirror.tsx:82 | walking back over line feeds stops just past the last character that is not a line feed |
| UnderLine.NewlinesStart | src/views/modules/TagEditor/components/BlockCodeMirror.tsx:82 | walking forward over line feeds stops at the first character that is not a line feed |
| UnderLine.CoreEnd | src/views/modules/TagEditor/components/BlockCodeMirror.tsx:82 | everything after the core of the input is line feeds, and the core does not end with one |
| UnderLine.CoreStart | src/views/modules/TagEditor/components/BlockCodeMirror.tsx:82 | everything before the core of the input is line feeds, and the core does not start with one |
| UnderLine.TrimmedEndReplaced | src/views/modules/TagEditor/components/BlockCodeMirror.tsx:82 | after the replacement, lodash trim's backward walk stops exactly where the input's trailing line feeds begin |
| UnderLine.TrimmedStartReplaced | src/views/modules/TagEditor/components/BlockCodeMirror.tsx:82 | after the replacement, lodash trim's forward walk stops exactly where the input's leading line feeds end |
| UnderLine.UnderLineIsSlice | src/views/modules/TagEditor/components/BlockCodeMirror.tsx:82 | the output is the replaced input cut to the span between the leading and trailing line feeds |
| UnderLine.UnderLineIsReplacedCore | src/views/modules/TagEditor/components/BlockCodeMirror.tsx:82 | replace-then-trim equals strip-outer-line-feeds-then-replace |
| UnderLine.UnderLineLength | src/views/modules/TagEditor/components/BlockCodeMirror.tsx:82 | the output length is the input length minus its leading and trailing line feeds, and the output is empty exactly when the input is only line feeds |
| UnderLine.UnderLineAt | src/views/modules/TagEditor/components/BlockCodeMirror.tsx:82 | each input position between the outer line feeds maps to the output position shifted by the leading line feeds, holding its replacement |
| UnderLine.UnderLineKeepsChar | src/views/modules/TagEditor/components/BlockCodeMirror.tsx:82 | every non-whitespace input character appears in the output, shifted left by the number of leading line feeds, so order is kept |
| UnderLine.UnderLineBlankAt | src/views/modules/TagEditor/components/BlockCodeMirror.tsx:82 | every non-newline whitespace character of the input lies between the outer line feeds and becomes exactly one `_`, shifted by the same amount as every kept character, so runs are not collapsed |
| UnderLine.UnderLineNewlineAt | src/views/modules/TagEditor/components/BlockCodeMirror.tsx:82 | interior line feeds are kept, shifted left by the number of leading line feeds like every other kept character |
| UnderLine.UnderLineIdempotent | src/views/modules/TagEditor/components/BlockCodeMirror.tsx:82 | applying UnderLine twice gives the same text as applying it once |
| UnderLine.UnderLineKeepsOuterUnderscores | src/views/modules/TagEditor/components/BlockCodeMirror.tsx:82 | blanks at both ends become underscores that trimming keeps, and nothing is removed |
| UnderLine.UnderLineRunExample | src/views/modules/TagEditor/components/BlockCodeMirror.tsx:82 | `a  b` becomes `a__b` |
| UnderLine.UnderLineNewlineExample | src/views/modules/TagEditor/components/BlockCodeMirror.tsx:82 | outer line feeds are removed and an interior one is kept |
| BlockCodeMirror.IsSameInputText | src/views/modules/TagEditor/components/BlockCodeMirror.tsx:99-101 | the panel counts as clean exactly when the editor text equals the committed text |
| BlockCodeMirror.DangerColor | src/views/modules/TagEditor/components/BlockCodeMirror.tsx:99-105 | the label colour is red exactly when the editor text differs from the committed text, and the default otherwise |
| BlockCodeMirror.RefreshWarning | src/views/modules/TagEditor/components/BlockCodeMirror.tsx:122-125 | the "* Not Yet Refresh" label is shown exactly when the two texts differ, and is empty otherwise |
| BlockCodeMirror.SetNextInputText | src/views/modules/TagEditor/components/BlockCodeMirror.tsx:24-27 | both fields become the given text, so the panel is clean: default colour and no warning |
| BlockCodeMirror.EditorChange | src/views/modules/TagEditor/components/BlockCodeMirror.tsx:64 | typing sets only the editor text, keeps the committed text, and turns the labels red exactly when the typed text differs from it |
| BlockCodeMirror.RenderSplit | src/views/modules/TagEditor/components/BlockCodeMirror.tsx:76-79 | the Split button shows the split rendering of the atoms and leaves the panel clean |
| BlockCodeMirror.AtomListEffect | src/views/modules/TagEditor/components/BlockCodeMirror.tsx:38-41 | the effect that runs when the atom list changes shows its split rendering and leaves the panel clean, exactly as the Split button does |
| BlockCodeMirror.RenderZip | src/views/modules/TagEditor/components/BlockCodeMirror.tsx:86-89 | the Min button shows the zip rendering of the atoms and leaves the panel clean |
| BlockCodeMirror.UnderScoreClick | src/views/modules/TagEditor/components/BlockCodeMirror.tsx:81-84 | the UnderLine button shows the transformed text, never longer than before, and leaves the panel clean |
| BlockCodeMirror.Step | src/views/modules/TagEditor/components/BlockCodeMirror.tsx:59-97 | the atom-list effect and the Split, Min and UnderLine buttons set the split rendering, the zip rendering or the transformed text and leave the panel clean; typing sets only the editor text and makes the panel dirty exactly when it differs from the committed text; copying changes nothing |
| BlockCodeMirror.Run | src/views/modules/TagEditor/components/BlockCodeMirror.tsx:59-97 | no events leave the panel as it was, and a sequence without a committing event keeps the committed text |
| BlockCodeMirror.RunAppend | src/views/modules/TagEditor/components/BlockCodeMirror.tsx:59-97 | running two event sequences one after the other is running their concatenation |
| BlockCodeMirror.UncommittedRunDirtiness | src/views/modules/TagEditor/components/BlockCodeMirror.tsx:99-105 | after any sequence of typing and copying, the panel is dirty exactly when the editor text differs from the text committed before it |
| BlockCodeMirror.RunEndingInCommitIsClean | src/views/modules/TagEditor/components/BlockCodeMirror.tsx:76-89 | whatever came before, a sequence of events that ends with a rewriting event leaves the panel clean |
| TagCard.Truncate | src/views/modules/TagEditor/components/TagCard.tsx:14 | lodash truncate returns a string that fits unchanged; otherwise it returns a prefix of the string followed by the omission, exactly `length` long when the omission is shorter than `length`, and the omission alone when it is not |
| TagCard.ShortName | src/views/modules/TagEditor/components/TagCard.tsx:14 | the displayed name is at most 16 symbols; a name that fits is unchanged; a longer one becomes its first 13 symbols followed by `...`, 16 in all |
| TagCard.ShortNameIdempotent | src/views/modules/TagEditor/components/TagCard.tsx:14 | shortening a displayed name again changes nothing |
| TagCard.ShortNameCollision | src/views/modules/TagEditor/components/TagCard.tsx:14 | two names too long to fit are displayed alike exactly when their first 13 symbols agree |
| TagCard.ShortNameMarksTruncation | src/views/modules/TagEditor/components/TagCard.tsx:14 | the display differs from the name exactly when the name is longer than 16 symbols, and then it ends with `...` |
| TagCard.InitialCard | src/views/modules/TagEditor/components/TagCard.tsx:10-12 | a new card starts with numeric weight 1 and bracket weight 0 |
| TagCard.NameEffect | src/views/modules/TagEditor/components/TagCard.tsx:13-16 | the props effect sets the displayed name to the shortened name and leaves both weights alone |
| TagCard.MountedCard | src/views/modules/TagEditor/components/TagCard.tsx:10-16 | a mounted card shows its name within 16 symbols, unchanged when it fits, with weights 1 and 0 |

## Left out

- The grammar-based parser (`src/utils/parser.ts`): it wraps the `nearley` library with a grammar file that is not part of this model, so its behaviour cannot be stated.
- `simpleTagsToCode` and its split and zip modes: the serializer's file is not part of this model. It is the opaque parameter `toCode`, and no parse/serialize round trip is claimed.
- The fields of a tag atom: only the serializer reads them, so `BlockCodeMirror.TagAtom` is an abstract type with equality.
- The Refresh button (`submitInputText`): its reducer is not part of this model.
- The Redux reducers behind `setInputText` and `setPrevInputText` are assumed to assign the payload field; the action-creator binding and dispatch are not modelled.
- The clipboard copy: the copied text is I/O. The model only records that copying does not change the panel state.
- CodeMirror, Mantine and React rendering, hover cards and icons, and the no-op plus/minus/remove handlers of the card: these are presentation.
- The split of a string into Unicode symbols by lodash (surrogate pairs, combining marks, joiners): a name is already a sequence of symbols here.
- TagCard.Truncate: the `separator` option and a negative or fractional `length` are not modelled; the card passes neither.
- JavaScript strings are UTF-16; the model uses Unicode scalar values. Every whitespace character is in the Basic Multilingual Plane, so the regex and `trim` treat both alike.
