# A verified model of a line-oriented CSS tokenizer

The modelled system turns CSS source text into a flat stream of tokens, then
offers views over that stream. Its lexer:

1. strips `/* … */` comments;
2. hands the text to a formatter, which validates it and rewrites it into a
   canonical layout of one construct per line;
3. cuts the formatted text after every `{`, `;` or `}` that ends a physical
   line and drops the blank chunks;
4. folds each chunk into one logical line;
5. classifies each logical line through an ordered cascade of nine rules
   (closing brace, `@media`, `@keyframes`, `@font-face`, `@charset`,
   `@supports`, declaration, keyframe selector, selector). Each line yields
   zero, one or two tokens.

A token is a kind, a text and a position. The position is `[line]`, or
`[line, column]` for the synthetic opening brace that follows every
block-opening construct. On top of the stream, `tokenize` offers:

- the stream itself;
- three filters by kind;
- a fold that groups each selector with its declarations into a "ruleset"
  record, emitted at the closing brace.

Modules, in dependency order:

- `Text`: character classes (the full JavaScript `\s` set), prefix and suffix
  tests, whitespace and digit runs, `indexOf`, and the non-whitespace
  projection used to state that segmentation loses only whitespace.
- `Tokens`: `Kind`, `Position`, `Token`, and the `Result` of `process`.
- `Comments`: the lazy comment regex as `StripComments`.
- `Segmenter`: the split, the blank-chunk filter and the newline collapse that
  produce the logical lines.
- `Classifier`: the nine line predicates, the token builders and `GetToken`,
  with lemmas that pin down the token sequence for each kind of line.
- `Lexer`: the stream of a sequence of logical lines (`TokensOfLines`), the
  imperative `Process` loop proved equal to it, and the stream-level
  properties: line order, one group per line, openers followed by their
  brace.
- `Views`: the filters and the `rulesets` fold. The fold is given both as a
  specification function (`Records`) and as the imperative loop `Rulesets`.
- `Scenarios`: whole-stream consequences for concrete formatted stylesheets.

The formatter is a parameter of `Process`: `format: string -> Option<string>`,
where `None` stands for the formatter throwing.

## Model

| member | source | states |
|---|---|---|
| Text.SpaceRun | src/lexer.js:222 | the length of the leading whitespace run (JavaScript `\s`): the prefix it spans is all whitespace and the next character is not |
| Text.DigitRun | src/lexer.js:156 | the length of the leading run of decimal digits: every character before it is a digit and the next one is not |
| Text.IndexOf | src/lexer.js:173 | `indexOf` of one character: -1 exactly when it is absent, otherwise the index of its first occurrence |
| Text.NonSpaceAppend | src/lexer.js:43-45 | the non-whitespace characters of a concatenation are those of its first part followed by those of its second |
| Text.NonSpaceEmpty | src/lexer.js:43 | a string loses everything when whitespace is dropped exactly when it is all whitespace (`trim() === ''`) |
| Comments.FindCloser | src/lexer.js:40 | finds the first `*/` at or after a position, and reports none when there is none |
| Comments.FindCloserFirst | src/lexer.js:40 | the lazy `*?`: the closer found is the earliest one |
| Comments.StripComments | src/lexer.js:40 | stripping comments never lengthens the text |
| Comments.NoCommentUnchanged | src/lexer.js:40 | text with no `/*` comes back unchanged |
| Comments.StripsFirstComment | src/lexer.js:40 | a leading comment-free part is kept, the first `/*…*/` span (ending at its first `*/`) is removed, and stripping resumes after it |
| Comments.CommentedOutTextVanishes | src/lexer.js:40 | a text that is one comment strips to the empty string |
| Segmenter.NextCut | src/lexer.js:41 | the next split point: a `{`, `;` or `}` followed by a newline or the end, with none skipped |
| Segmenter.Chunks | src/lexer.js:41-42 | like `split`, the cut always yields at least one chunk |
| Segmenter.ChunksJoin | src/lexer.js:41-42 | the chunks, joined in order, give back the text: the cut loses and adds nothing |
| Segmenter.ChunksEnds | src/lexer.js:41-42 | the first chunk is a prefix of the text; every chunk but the last ends in `{`, `;` or `}`; every chunk after the first starts with a newline or is empty |
| Segmenter.ChunksUncut | src/lexer.js:41-42 | no chunk holds a split point except at its own end, and only a chunk before the last ends at one |
| Segmenter.ChunksCut | src/lexer.js:41-42 | the text is cut right after its first split point, whatever `{`, `;` or `}` sit inside lines before it, and the rest is cut the same way |
| Segmenter.ChunksAfter | src/lexer.js:41-42 | a first chunk ending in its only terminal, followed by a newline, is split off whole |
| Segmenter.ChunksNoTerminal | src/lexer.js:41-42 | text with no `{`, `;` or `}` is one chunk |
| Scenarios.MidLineTerminalChunks | src/lexer.js:41-42 | a `;` inside a physical line is no split point: `a;b {` followed by a new line is cut after the `{` only |
| Segmenter.Collapse | src/lexer.js:45 | folding never lengthens a chunk |
| Segmenter.CollapseFolds | src/lexer.js:45 | the folded chunk has no newline, has the same non-whitespace text as the chunk, and holds no new characters |
| Segmenter.CollapseNewline | src/lexer.js:45 | a newline is removed together with the whole whitespace run after it, while the newline-free text before it is kept |
| Segmenter.Kept | src/lexer.js:43 | the filter never lengthens the chunk list |
| Segmenter.KeptFilters | src/lexer.js:43 | a chunk is kept exactly when it is in the list and is not all whitespace, and no non-whitespace text is lost |
| Segmenter.KeptSingle | src/lexer.js:43 | a single chunk is kept exactly when `trim()` leaves something of it |
| Segmenter.KeptAppend | src/lexer.js:43 | the filter keeps order and multiplicity: filtering a concatenation is concatenating the filtered parts |
| Segmenter.Lines | src/lexer.js:41-45 | the logical lines of formatted text; `Segmenter.LinesAreLogical` and `Segmenter.SegmentationKeepsText` state what they are |
| Segmenter.LinesAreLogical | src/lexer.js:41-45 | every logical line is non-blank and newline-free, and free of every line terminator when the text is clean |
| Segmenter.SegmentationKeepsText | src/lexer.js:41-45 | the logical lines, read in order, hold exactly the non-whitespace characters of the formatted text |
| Segmenter.NonSpaceOfCollapsed | src/lexer.js:45 | folding every chunk keeps the non-whitespace text of the whole chunk list |
| Segmenter.BlankTextHasNoLines | src/lexer.js:43 | blank formatted text yields no logical line |
| Segmenter.CollapseKeepsSingleLine | src/lexer.js:45 | a chunk with no newline is its own logical line |
| Classifier.IsClosingBrace | src/lexer.js:119-122 | `/}$/`, a line ending in `}`; `Classifier.GetToken` states that such a line gives exactly the closing brace, whatever precedes the `}` |
| Classifier.IsMediaQuery | src/lexer.js:124-127 | `/^@media.+{$/`; `Classifier.AtRuleCascade` states that a matching line is classified as a media query |
| Classifier.IsKeyFrame | src/lexer.js:129-132 | `/^@keyframes.+{$/`; `Classifier.AtRuleCascade` states that a matching line is classified as a keyframes rule |
| Classifier.IsFontFace | src/lexer.js:134-137 | `/^@font-face.+{$/`; `Classifier.AtRuleCascade` and `Classifier.FontFaceHeader` state its classification |
| Classifier.IsCharSet | src/lexer.js:139-142 | `/^@charset.*;$/`; `Classifier.CharsetLine` states that a matching line gives one `CHARSET` token |
| Classifier.IsSupports | src/lexer.js:144-147 | `/^@supports.+{$/`; `Classifier.AtRuleCascade` and `Classifier.SupportsHeader` state its classification |
| Classifier.IsDeclaration | src/lexer.js:149-152 | `/.\S*[^\n]+\s*;/` on a logical line, a `;` after at least two characters; `Classifier.DeclarationRule` states that a matching line not caught earlier gives one `DECLARATION` token |
| Classifier.IsSelector | src/lexer.js:159-162 | `/.+{/` or `/.+,/`; `Classifier.SelectorLine` and `Classifier.CascadeTail` state that it is tried last |
| Classifier.OpeningBrace | src/lexer.js:167-176 | the `{` token at `[pos + 1, indexOf('{') + 1]`; `Lexer.BlockOpenersPaired` states that it follows every opener |
| Classifier.ClosingBrace | src/lexer.js:178-184 | the `}` token on line `pos + 1`; `Lexer.ClosingLineIsOneBrace` states when it is emitted |
| Classifier.DeclarationToken | src/lexer.js:233-239 | the declaration token carries the whole line; `Classifier.DeclarationRule` states when it is emitted |
| Classifier.AtRule | src/lexer.js:205-231 | `@charset` gives one token, every other at-rule a pair; `Classifier.CharsetLine` and `Classifier.BlockAtRuleLine` state the two cases |
| Classifier.BlockTokens | src/lexer.js:252-266 | the construct without its spaced brace, then its brace; `Classifier.BlockTokensOf` states its outcome |
| Classifier.IsKeyFrameSelector | src/lexer.js:154-157 | every alternative is anchored: a match starts with `f`, `t` or a digit |
| Classifier.Column | src/lexer.js:167-176 | the brace column is 0 exactly when the line has no `{`, and otherwise is the 1-based position of the first `{` |
| Classifier.DropSpacedBrace | src/lexer.js:222 | removing the first whitespace-then-`{` never lengthens the text |
| Classifier.GetToken | src/lexer.js:79-115 | at most two tokens, all on line `pos + 1`; a line ending in `}` gives exactly the closing brace; two tokens exactly when the first opens a block, and then the first carries the line without its first spaced brace and the second is the `{` at the line's brace column; a single token is the closing brace or a charset or declaration carrying the whole line |
| Classifier.SilentIffNoMatch | src/lexer.js:79-115 | a line yields no token exactly when none of the nine rules matches it |
| Classifier.DropSpacedBraceNoMatch | src/lexer.js:222 | the replace finds no match, and the text is kept, when no `{` of it follows whitespace |
| Classifier.DropSpacedBraceNoBrace | src/lexer.js:222 | a line without `{` keeps its text |
| Classifier.DropsFirstSpacedBrace | src/lexer.js:222 | the replace removes the leftmost whitespace-then-`{`: when no `{` inside the text before it follows whitespace, that text and the text after the brace are kept, whatever the rest holds |
| Classifier.DropsLeadingSpacedBrace | src/lexer.js:222 | a line opening with whitespace and `{` loses exactly those |
| Classifier.DropsTrailingSpacedBrace | src/lexer.js:222 | a brace-free head followed by whitespace and `{` becomes the head |
| Classifier.TrailingBraceColumn | src/lexer.js:173 | the column of the trailing `{` after a brace-free head and whitespace |
| Classifier.ColumnAt | src/lexer.js:173 | the column is one past the index of the first `{` |
| Classifier.CharsetLine | src/lexer.js:96-98 | a line starting with `@charset` and ending in `;` gives one `CHARSET` token carrying the whole line, with no brace |
| Classifier.DeclarationRule | src/lexer.js:104-106 | a line holding a `;` after at least two characters that no earlier rule (closing brace, the five at-rules) matches gives one `DECLARATION` token carrying the whole line |
| Classifier.DeclarationLine | src/lexer.js:104-106 | in particular, a line of three or more characters ending in `;` and not starting with `@charset` gives one `DECLARATION` token carrying the whole line |
| Classifier.SemicolonInSelector | src/lexer.js:104-114 | the declaration rule is tried before the selector rule: `a[href$=";"] {` gives a `DECLARATION`, not a `SELECTOR` |
| Classifier.NotAtRule | src/lexer.js:124-147 | a line not starting with `@` matches none of the five at-rule predicates |
| Classifier.CascadeTail | src/lexer.js:79-115 | for a line that neither ends in `}`, nor holds a declaration, nor matches one of the five at-rule rules, the outcome is decided by the keyframe-selector rule, then the selector rule, and otherwise is empty |
| Classifier.OtherAtRule | src/lexer.js:124-147 | an at-rule whose name starts with none of `m`, `k`, `f`, `c`, `s` (such as `@page` or `@layer`) matches none of the five at-rule rules |
| Classifier.OtherAtRuleLine | src/lexer.js:112-114 | such an at-rule followed by whitespace and `{` gives a `SELECTOR` holding the rule text, then the brace at its column |
| Classifier.UnknownAtRuleIsSelector | src/lexer.js:159-162 | `@page :first {` gives `SELECTOR "@page :first"` on line 1 and the brace at column 14 |
| Classifier.BlockTokensOf | src/lexer.js:252-266 | the selector builder on head, whitespace and `{` gives the head and the brace at column `|head| + |w| + 1` |
| Classifier.KeyframeSelectorMatches | src/lexer.js:154-157 | `from`, `to` and a one-to-three-digit percentage, each followed by whitespace and `{`, match the keyframe-selector rule |
| Classifier.PercentageMatches | src/lexer.js:156 | the `\d{1,3}%\s+{` alternative matches a percentage key |
| Classifier.WordMatches | src/lexer.js:156 | the `from\s+{` and `to\s+{` alternatives match their keywords |
| Classifier.KeyframeSelectorLine | src/lexer.js:108-110 | `from {`, `to {` and `40% {` give a `KEYFRAME_SELECTOR` with the bare key, then the brace at its column |
| Classifier.SelectorLine | src/lexer.js:112-114 | a brace-free selector that is not an at-rule, has no `;` and is no keyframe selector gives a `SELECTOR` with the selector text, then the brace |
| Classifier.AtRuleCascade | src/lexer.js:84-102 | a line `@media…{`, `@keyframes…{`, `@font-face…{` or `@supports…{` is classified by its own rule |
| Classifier.BlockAtRuleLine | src/lexer.js:205-231 | such an at-rule gives the rule without its spaced brace, then the brace at its column |
| Classifier.DotFromIsSelector | src/lexer.js:154-161 | `.from {` is an ordinary `SELECTOR`, since the keyframe alternatives are anchored |
| Classifier.PercentageListIsSelector | src/lexer.js:154-161 | a comma list of percentages such as `0%,20%,100% {` is a `SELECTOR`, not a keyframe selector |
| Classifier.PercentageListShape | src/lexer.js:156 | a comma list of percentages fails the keyframe-selector rule |
| Classifier.NotKeyframeSelectorAfterPercent | src/lexer.js:156 | a percentage followed by a comma fails the keyframe-selector rule |
| Classifier.FontFaceHeader | tests/tokens.test.js:148-150 | `@font-face {` gives `FONT_FACE "@font-face"` on line 1 and the brace at column 12 |
| Classifier.SupportsHeader | tests/tokens.test.js:178-180 | `@supports (display: flex) {` gives the rule text without the brace and the brace at column 27 |
| Lexer.GroupsShaped | src/lexer.js:205-266 | every group has at most two tokens, all on its own line; a pair is an opener and its brace; a single token is neither |
| Lexer.TokensOfLines | src/lexer.js:44-57 | at most two tokens per line, and every line number lies between 1 and the number of logical lines |
| Lexer.FlattenBounds | src/lexer.js:48-54 | spreading the groups keeps the token count and line bounds |
| Lexer.Flatten | src/lexer.js:48-54 | the spread of the groups into one stream; `Lexer.FlattenOrdered` and `Lexer.FlattenOnLine` state its order and what each line contributes |
| Lexer.LineOrder | src/lexer.js:44-57 | tokens appear in line order: line numbers never decrease along the stream |
| Lexer.FlattenOrdered | src/lexer.js:48-54 | spreading groups numbered in order gives a stream ordered by line |
| Lexer.Lex | src/lexer.js:40-57 | the token stream of formatted text; `Lexer.Process` states that the loop computes it, and `Scenarios.GroupedRulesetLex` gives an instance |
| Lexer.Process | src/lexer.js:39-58 | a formatter failure gives `InvalidCss`; otherwise the result is the token stream of the formatted, comment-free text, built by the accumulating loop |
| Lexer.OnLineAppend | src/lexer.js:48-54 | the tokens on a line distribute over concatenation |
| Lexer.OnLineAll | src/lexer.js:48-54 | tokens all on one line are all selected for it |
| Lexer.OnLineNone | src/lexer.js:48-54 | tokens none on a line select nothing for it |
| Lexer.OnLineMembers | src/lexer.js:48-54 | the tokens selected for a line are exactly the stream's tokens on that line |
| Lexer.BeforeLastLine | src/lexer.js:44-57 | tokens of earlier lines select nothing for a later line |
| Lexer.FlattenOnLine | src/lexer.js:44-57 | in the spread stream, the tokens on line `n + 1` are exactly group `n` |
| Lexer.OnLineOfLast | src/lexer.js:44-57 | the last line's tokens are the last group |
| Lexer.OnLineBeforeLast | src/lexer.js:44-57 | appending the last group leaves earlier lines' tokens unchanged |
| Lexer.LineTokens | src/lexer.js:44-57 | the tokens with line number `n + 1` are exactly `getToken` of logical line `n`, in order |
| Lexer.SilentLine | src/lexer.js:46-48 | a line matching no rule emits nothing, yet still consumes its number |
| Lexer.ClosingLineIsOneBrace | src/lexer.js:80-82 | a logical line ending in `}` contributes exactly one `BRACE_CLOSE "}"` to the stream |
| Lexer.BlockOpenersPaired | src/lexer.js:167-176 | every block-opening token is immediately followed by `{` on its line at the column of the line's first `{`, and every `{` follows an opener on its own line |
| Lexer.FlattenPaired | src/lexer.js:217-226 | spreading well-shaped groups gives a stream whose openers and braces are paired |
| Lexer.PairedAppend | src/lexer.js:254-263 | appending one well-shaped group keeps openers and braces paired |
| Lexer.BlankTextHasNoTokens | src/lexer.js:43 | blank formatted text gives an empty stream |
| Views.OfKind | src/index.js:17-25 | a filter view is never longer than the stream |
| Views.OfKindMembers | src/index.js:17-25 | a filter view holds exactly the stream's tokens of its kind |
| Views.Selectors | src/index.js:17-19 | `selectors()` holds exactly the `SELECTOR` tokens |
| Views.Declarations | src/index.js:20-22 | `declarations()` holds exactly the `DECLARATION` tokens |
| Views.MediaQueries | src/index.js:23-25 | `mediaQueries()` holds exactly the `MEDIA_QUERY` tokens |
| Views.OfKindAppend | src/index.js:17-25 | filtering keeps stream order: the view of a concatenation is the concatenation of the views |
| Views.OfKindCons | src/index.js:17-25 | a leading token is kept exactly when it has the kind |
| Views.OfKindIdempotent | src/index.js:17-25 | filtering a view again changes nothing |
| Views.Step | src/index.js:33-53 | a record is emitted only at a `BRACE_CLOSE` with non-empty state; the state resets at every `BRACE_CLOSE`; other tokens never emit |
| Views.RunFrom | src/index.js:33-56 | the fold of the reducer from a given state; `Views.RunFromAppend` and `Views.RunKeepsConsistent` state its properties |
| Views.RunFromAppend | src/index.js:33-56 | folding a concatenation is folding the second part from the state left by the first |
| Views.Records | src/index.js:26-57 | the records of the fold from the empty state; `Views.Rulesets` states that the loop computes them |
| Views.RunKeepsConsistent | src/index.js:35-52 | the fold keeps the state consistent, emits only records with a selector and a non-empty declaration list when present, never drops a record, and emits at most one per `BRACE_CLOSE` |
| Views.StepKeepsConsistent | src/index.js:35-52 | one step of the fold keeps the same invariant |
| Views.Rulesets | src/index.js:26-57 | the loop computes the fold's records; every record has a selector; there are at most as many records as `BRACE_CLOSE` tokens |
| Views.InsideBlock | src/index.js:35-45 | within a block, a later selector replaces the earlier one, declarations accumulate in stream order, and the key stays absent while there is none |
| Views.BlockGroups | src/index.js:35-52 | a selector, its block body and the closing brace emit one record holding the last selector and the block's declarations, and reset the state |
| Views.NoSelectorNoRecord | src/index.js:38-50 | with no selector set, declarations are dropped and closing braces emit nothing |
| Scenarios.RulesetLines | src/lexer.js:44-57 | a selector line, a declaration line and a closing line give the selector, its brace, the declaration and the closing brace, numbered 1, 1, 2, 3 |
| Scenarios.GroupedRulesetKept | tests/tokens.test.js:4-17 | the formatted text of the test is cut after `{`, `;` and `}`, and the filter drops only the trailing newline |
| Scenarios.GroupedSelectorCollapses | tests/tokens.test.js:6 | the grouped selector, one selector per physical line, folds into `h1,h2,h3 {` |
| Scenarios.DeclarationChunkCollapses | tests/tokens.test.js:7 | the indented declaration chunk folds into `color: aliceblue;` |
| Scenarios.ClosingChunkCollapses | tests/tokens.test.js:8 | the closing chunk folds into `}` |
| Scenarios.GroupedRulesetLines | tests/tokens.test.js:4-17 | the formatted text has exactly three logical lines, `h1,h2,h3 {`, `color: aliceblue;` and `}` |
| Scenarios.GroupedRulesetTokens | tests/tokens.test.js:4-17 | the formatted grouped ruleset gives the expected four tokens, with the brace at column 10 |
| Scenarios.GroupedRulesetLex | tests/tokens.test.js:4-17 | from the formatted text itself, the stream is the four tokens the test expects |
| Scenarios.GroupedRulesetRecords | src/index.js:26-57 | that stream groups into one ruleset holding the selector `h1,h2,h3` and its one declaration |

## Left out

- `prettier.format` is not modelled. It is a foreign library that validates CSS and rewrites it into a canonical layout. `Process` takes it as the parameter `format`, and its throw becomes `None`, giving `Failure(InvalidCss)`. The `console.log` of the failure is dropped.
- The split marker `🐹` is not modelled as a character in the text. The split is stated directly. `Process` requires that the formatted text holds no marker, no `'\r'`, U+2028 or U+2029, and no character above U+FFFF, so that `'\n'` is its only line terminator. Text breaking that assumption would be split differently by the source.
- Test expectations that depend on the formatter's rewriting are not reproduced, for example `(max-width: 300px)`. The grouped-ruleset test is stated from the text the formatter lays out, one selector per physical line; that layout is taken as given.
- `tokens()` is the identity on the stream, so it has no member of its own. The stream is `Process`'s result.
- `rulesetsAsObjects` (the Map to plain-object conversion) and the `module.exports` lists are plumbing with no behaviour beyond `rulesets()`.
- `Rulesets` reads the whole stream and skips the kinds the source's `filter` removes, rather than filtering first. The outcome is the same.
- Rulesets are records with two optional fields, not Maps. Map key order is not modelled.
- JavaScript strings are sequences of UTF-16 code units; the model works on Unicode characters. `Clean` requires every character of the formatted text to lie in the Basic Multilingual Plane, where one character is one code unit, so columns and indices agree with JavaScript's. Text with characters above U+FFFF is not modelled: there JavaScript counts a surrogate pair as two columns, and `.` in a regex matches a single code unit.
- Where the prose description and the code differ, the model follows the code:
  - a closing-brace line is any line ending in `}` (`/}$/`), not only a bare `}`;
  - only the first whitespace-then-`{` is removed from a construct's text (the regex has no `g` flag);
  - a declaration's text is the whole line;
  - the brace column is `indexOf('{') + 1`, which would be 0 on a line with no `{`.
