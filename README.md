# md2ipynb in Dafny

A verified model of the core of md2ipynb, which turns Markdown documents into
Jupyter notebooks. The pipeline reads lines, normalises HTML headers and `<pre>`
blocks into Markdown, and groups the lines into paragraphs and the paragraphs
into sections. It then splices imported sections in, filters annotated
paragraphs by class, and turns the paragraphs into markdown and code cells
with unique slug ids. Beside the pipeline the repository holds:

- an experimental GitHub Flavored Markdown block parser (fenced and indented
  code blocks, tab expansion, block-quote prefixes, paragraph line joining);
- a small functional toolkit: text parser combinators, a lazy stream,
  `Maybe` and `Result`, a position-tracking character parser, and block-quote
  prefix matching.

Each source file, or each stage of `docs_nbgen.py`, is one Dafny module. The
repository holds several textually identical copies of some stages. The line
segmenter appears in `read/paragraphs.py` and `docs_nbgen.py`, the sectioner
in `read/sections.py` and `docs_nbgen.py`, and `extract_snippet` appears four
times. Each is modelled once, and the table below cites every copy.

Loops become Dafny methods with `while` loops. Each method is proved equal to
a specification function, written as a left fold over the input. The
properties the source promises are lemmas about those functions. The GFM
parser, an object whose methods update its fields, is a Dafny `class`. The
toolkit, which is made of values and closures, is modelled with datatypes and
functions.

Where the prose description of the system and the code disagree, the model
follows the code. The GFM parser decides a hard line break by the current line
ending in two spaces (`md2ipynb/document/parser/parser.py:147`). The described
GFM rule looks at the previous line.

Two copies of the shell rewrite differ, and both are modelled as written. `md2ipynb/steps/filter_classes.py:57-58` prefixes `!` to every interior line of a shell block. `shell_code_block` (`md2nb/convert.py:79-83`, `docs_nbgen.py:429-433`) skips empty lines and comment lines.

## Model

| member | source | states |
|---|---|---|
| Paragraphs.Segment | md2ipynb/read/paragraphs.py:21-48 | The segmentation loop yields exactly `Paragraphs(lines)`: its loop state after each line is the left fold of one loop step over the lines read so far. |
| Paragraphs.JoinEachSplits | docs_nbgen.py:207-226 | One paragraph per group of lines, in order, and splitting each paragraph at its line breaks gives back exactly its group: the lines are joined with `'\n'` and never with spaces. |
| Paragraphs.GroupsWellFormed | docs_nbgen.py:199-226 | Every paragraph is one of three kinds. A plain paragraph is made of non-blank lines, with a header line always alone. A closed fence runs from a line starting with three backticks to the first later line ending with them. Only the last paragraph may be a fence still open at end of input. |
| Paragraphs.NoEmptyParagraph | md2ipynb/read/paragraphs.py:29-48 | No yielded paragraph is the empty string. |
| Paragraphs.KeepsNonBlankLines | md2ipynb/read/paragraphs.py:21-48 | Read in order, the paragraphs' lines give back every non-blank input line in its original order: only blank lines outside fences are dropped. |
| Paragraphs.InsideFence | md2ipynb/read/paragraphs.py:25-36 | Once a line starting with three backticks opens a fence, every later line that does not end with three backticks is appended verbatim, blank lines included. |
| Paragraphs.FenceParagraph | docs_nbgen.py:203-214 | A fence closed by the first later line ending with three backticks becomes one paragraph holding every line from opener to closer, after the paragraphs yielded before it. |
| Paragraphs.UnclosedFenceFlushed | md2ipynb/read/paragraphs.py:47-48 | A fence never closed is yielded at end of input with all its lines. |
| Sections.SplitSections | md2ipynb/read/sections.py:21-32 | The sectioning loop yields exactly `Sections(paragraphs, startOnHeader)`. It requires non-empty paragraphs, because the loop indexes `paragraph[0]`. |
| Sections.HeaderChar | md2ipynb/read/sections.py:25 | On a non-empty paragraph, the header test is exactly "the first character is `#`". |
| Sections.FirstHeader | docs_nbgen.py:283 | The index of the first header paragraph: no paragraph before it is a header, and the one at it is, unless there is none. |
| Sections.SectionsSplitAtHeaders | docs_nbgen.py:279-290 | No section is empty, a header occurs only as the first paragraph of a section, and every section after the first starts with a header. |
| Sections.SectionsKeepOrder | md2ipynb/read/sections.py:21-32 | Concatenated, the sections are the input minus the dropped prefix, in order. The prefix is the paragraphs before the first header, dropped only when `start_on_header` is set and a header exists. |
| Sections.StartOnHeaderFirstSection | md2ipynb/read/sections.py:26-29 | With `start_on_header` and a header present, the first section starts with the first header. |
| Sections.NoHeaderOneSection | docs_nbgen.py:289-290 | Without any header, the whole input is yielded as one section, even with `start_on_header` set. |
| Imports.Normalise | md2ipynb/bak/steps/imports.py:33-37 | The normalisation loop gives `Normalised(imports, order, count)`, the fold of one move per key in the dictionary's iteration order. |
| Imports.NormalisedTargets | docs_nbgen.py:300-304 | After normalisation, every key `k` holds its inputs at `len(sections)+k+1` when negative and at `k` otherwise, computed against the original count. Every key left is non-negative and comes from some given key. |
| Imports.LoadAll | md2ipynb/bak/steps/imports.py:24-27 | `sections_from_imports` yields the sections of each input file, file after file, in list order. |
| Imports.LoadedMembers | md2ipynb/bak/steps/imports.py:24-27 | Every loaded section comes from one of the inputs at that index. |
| Imports.ImportSections | md2ipynb/bak/steps/imports.py:23-50 | The generator yields `Spliced(sections, Normalised(...))`: before each original section `i` the sections imported at `i`, then after the last one those imported at `len(sections)`. |
| Imports.NoImportsUnchanged | md2ipynb/bak/steps/imports.py:30-31 | Without imports the sections pass through unchanged. |
| Imports.OutOfRangeIgnored | md2ipynb/bak/steps/imports.py:40-50 | Indices outside `0..len(sections)` after normalisation contribute nothing. |
| Imports.OriginalsAndImportsInOrder | docs_nbgen.py:306-317 | When imported sections can be told from original ones, the originals come out exactly once each, in their order. The imports come out in index order, those at `len(sections)` last. |
| Lists.FlattenLoop | docs_nbgen.py:320-323 | The nested loops of `flatten` yield exactly `Flatten(lists)`. |
| Lists.FlattenAppend | docs_nbgen.py:320-323 | One more sub-list adds exactly its elements at the end. |
| Lists.FlattenConcat | docs_nbgen.py:320-323 | Flattening distributes over concatenation of the outer list. |
| Lists.FlattenCons | docs_nbgen.py:320-323 | The first sub-list's elements come first. |
| Lists.FlattenMember | docs_nbgen.py:320-323 | An element is yielded exactly when it belongs to some sub-list. |
| Attributes.LeadingNewlines | md2ipynb/util.py:22 | The trailing `\n*` of `attributes_re`: the length of the run of line breaks at the front, all of them `\n`, with the next character not one. |
| Attributes.FindOpen | md2ipynb/util.py:22 | The first `{:` of the text, or the text's length when there is none. |
| Attributes.Search | md2ipynb/util.py:22 | `attributes_re.search`: a found match is a match (whitespace, `{:`, a body without `}`, `}`, line breaks) at the first `{:`. Nothing is found exactly when no `}` follows any `{:`. |
| Attributes.StripChangesIffAnnotated | md2ipynb/steps/filter_classes.py:47 | Removing every annotation (`attributes_re.sub('', ...)`) changes the text exactly when it holds one, and then removes at least three characters. |
| Attributes.NoBraceColonUnchanged | md2ipynb/util.py:31-33 | Text without `{:` has no annotation and is left unchanged by removal. |
| Attributes.NameLength | md2ipynb/util.py:24-26 | The leading run of `[\w-]` characters, maximal. |
| Attributes.Classify | md2ipynb/util.py:23-27 | `attrib_re.match(token)`: `#` plus a non-empty name is an id, `.` plus a name a class, and `key='v'` or `key="v"` with matching quotes a key/value; anything else is invalid. |
| Attributes.ClassifyComplete | md2ipynb/util.py:23-27 | Every token of the grammar is recognised as what it is: the inverse direction of `Classify`. |
| Attributes.ParseAttributesLoop | md2ipynb/util.py:30-52 | `parse_attributes` computes `ParseAttributes(line)`: None without an annotation, else the fold of the token loop over the first annotation's whitespace-split body. |
| Attributes.ParseTokensLoop | md2ipynb/util.py:37-50 | The token loop computes `ParseTokens(tokens)`, the left fold of one token step. |
| Attributes.ErrorPersists | md2ipynb/util.py:46-48 | Once a `.class` token has met a string stored under `class`, the loop has raised: later tokens change nothing. |
| Attributes.ParseTokensMeaning | md2ipynb/util.py:37-50 | The dictionary token by token. Parsing raises exactly when a `.class` token follows a `class='...'` token. Otherwise every other name holds the value of its last assigning token, so the last `#id` wins, and `class` holds the `.class` names in order unless a `class='...'` came. |
| Attributes.InvalidTokensIgnored | md2ipynb/util.py:38-41 | A token the grammar rejects is skipped: the dictionary is as without it, so `{:}` and `{:@}` give `{}`. |
| Attributes.NoneIffNoAnnotation | md2ipynb/util.py:31-33 | `parse_attributes` returns None exactly when the text holds no `{:...}` annotation. |
| Attributes.NeverNoAnnotation | md2ipynb/util.py:35-52 | Once an annotation is found the result is never None, even with no valid token. |
| FilterClasses.ShellPrefixed | md2ipynb/steps/filter_classes.py:57-58 | Every line but the first and the last gets a leading `!`; the line count and the two fence lines are unchanged. |
| FilterClasses.PrefixShellLines | md2ipynb/steps/filter_classes.py:57-58 | The in-place loop over the lines array leaves `ShellPrefixed` of its old contents. |
| FilterClasses.FilterFence | md2ipynb/steps/filter_classes.py:49-63 | The fence rule and the final emptiness test, as the loop body runs them, give `ByFence`. |
| FilterClasses.FilterOne | md2ipynb/steps/filter_classes.py:40-63 | One loop iteration gives `Judge`: drop, keep a rewritten paragraph, or the error raised by `parse_attributes`. |
| FilterClasses.Filter | md2ipynb/steps/filter_classes.py:23-63 | The generator, with its keep and force-filter arguments normalised, yields what `Run` describes and stops if an error is raised. |
| FilterClasses.RaiseStops | md2ipynb/steps/filter_classes.py:39-41 | After an error nothing more is yielded. |
| FilterClasses.DefaultClasses | md2ipynb/steps/filter_classes.py:24-37 | By default `language-py`, `shell-sh` and `shell-bash` are kept and nothing is force-filtered. A single string argument stands for the one-element set. |
| FilterClasses.ForceFilterWins | md2ipynb/steps/filter_classes.py:43-44 | A paragraph with a force-filter class is dropped, even if it also has a keep class. |
| FilterClasses.NoKeepClassDropped | md2ipynb/steps/filter_classes.py:45-46 | An annotated paragraph with no class in the keep set is dropped. |
| FilterClasses.KeptAnnotatedStripped | md2ipynb/steps/filter_classes.py:47 | A kept annotated paragraph continues with every annotation removed and the surrounding newlines stripped. |
| FilterClasses.PlainPassesThrough | md2ipynb/steps/filter_classes.py:41-63 | A paragraph with no class annotation and no fence is yielded unchanged, if it is not empty. |
| FilterClasses.FenceRule | md2ipynb/steps/filter_classes.py:50-55 | A fenced block is dropped exactly when its tag is non-empty and neither the tag, `language-`+tag nor `shell-`+tag is kept. |
| FilterClasses.FencedKeptVerbatim | md2ipynb/steps/filter_classes.py:50-63 | A wanted or untagged fenced block whose tag is not a shell is yielded verbatim. |
| FilterClasses.ShellBlockLines | md2ipynb/steps/filter_classes.py:56-59 | A kept block tagged `sh` or `bash` has `!` before every interior line, with the fence lines and the line count unchanged. |
| FilterClasses.NeverEmpty | md2ipynb/steps/filter_classes.py:62-63 | No yielded paragraph is empty. |
| AnnotatedParagraphs.StepLine | md2ipynb/bak/read/paragraphs.py:30-83 | One iteration of the loop, with its `continue`, moves the loop variables exactly as `Step` does. Classification uses the line with annotations removed; the paragraphs keep the raw line. |
| AnnotatedParagraphs.Segment | md2ipynb/bak/read/paragraphs.py:25-87 | The segmentation loop yields exactly `Paragraphs(lines)`: the fold of `Step`, then the final flush, each group joined with `'\n'`. |
| AnnotatedParagraphs.AnnotationJoinsNext | md2ipynb/bak/read/paragraphs.py:58-59 | A pending paragraph that is one annotation line is merged with the next fence-open or header line instead of being yielded. |
| AnnotatedParagraphs.HeaderStartsParagraph | md2ipynb/bak/read/paragraphs.py:60-72 | Without a pending lone annotation, a fence-open or header line yields the open paragraph and starts a new one with itself. |
| AnnotatedParagraphs.TrailingAnnotationJoins | md2ipynb/bak/read/paragraphs.py:37-46 | Right after a header or closing fence, an annotation-only line is appended to that paragraph, the paragraph is yielded and the line consumed. |
| AnnotatedParagraphs.HeaderIsFinished | md2ipynb/bak/read/paragraphs.py:66-73 | After a header line the paragraph is marked done, so the next line starts fresh. |
| AnnotatedParagraphs.InsideFence | md2ipynb/bak/read/paragraphs.py:49-53 | Inside a fence every raw line is appended. The fence closes, and the paragraph is marked done, exactly on a line whose annotation-free text starts with three backticks. |
| AnnotatedParagraphs.KeepsRawLines | md2ipynb/bak/read/paragraphs.py:25-87 | Read in order, the paragraphs' raw lines give back every non-blank input line in order: only blank lines are dropped, annotation lines included. |
| AnnotatedParagraphs.NoEmptyParagraph | md2ipynb/bak/read/paragraphs.py:79-87 | Every yielded paragraph starts with a non-empty line, so none is the empty string. |
| CellIds.NonWordLength | md2ipynb/bak/steps/paragraphs_to_cells.py:21 | The maximal leading run of characters outside `\w`. |
| CellIds.Dashes | md2ipynb/bak/steps/paragraphs_to_cells.py:29 | `re.sub(r'[^\w]+', '-', s)`: the result holds only `-` and word characters of the input, starts with `-` exactly when the input starts with a non-word character, and never holds two `-` in a row. |
| CellIds.SlugShape | md2ipynb/bak/steps/paragraphs_to_cells.py:29 | Every slug is lower case, made of word characters and single `-` separators, with no `-` at either end. |
| CellIds.SlugIdempotent | docs_nbgen.py:333 | Slugging a slug gives it back. |
| CellIds.NumberedInjective | md2ipynb/bak/steps/paragraphs_to_cells.py:35 | Distinct suffixes give distinct numbered ids `name-i`. |
| CellIds.Bound | md2ipynb/bak/steps/paragraphs_to_cells.py:33-39 | A finite set of used ids holds at most as many numbered ids as it has members, so the `while True` search ends. |
| CellIds.FirstFree | md2ipynb/bak/steps/paragraphs_to_cells.py:33-39 | The suffix search returns the smallest `k >= 2` whose numbered id is unused. |
| CellIds.CellId | md2ipynb/bak/steps/paragraphs_to_cells.py:26-39 | An empty name gives `''` and records nothing. Otherwise the id returned is new and is the one recorded. |
| CellIds.CellIdChoice | md2ipynb/bak/steps/paragraphs_to_cells.py:30-39 | The id is the slug when the slug is free, else the slug with the first free suffix `-2`, `-3`, .... |
| CellIds.NextCellId | md2ipynb/bak/steps/paragraphs_to_cells.py:26-39 | `cell_id` with its `while True` loop returns the id and used set `CellId` describes. |
| CellIds.AllocAllDistinct | md2ipynb/bak/steps/paragraphs_to_cells.py:25-39 | Over a run of names, every non-empty id chosen is new and recorded, and no two of them are equal. |
| CellIds.CellIdAsWritten | docs_nbgen.py:330-343 | The `docs_nbgen.py` copy: a missing or empty name gives no id and records nothing. |
| CellIds.AsWrittenRepeats | docs_nbgen.py:337-342 | As written, a collision records the slug instead of the numbered id it returns, so the third use of a header gets the same id as the second. |
| CellIds.ThreeHeadersAsWritten | docs_nbgen.py:341 | The header "A" three times gives `a`, `a-2`, `a-2` in the `docs_nbgen.py` copy. |
| CellIds.ThreeHeadersCorrected | md2ipynb/bak/steps/paragraphs_to_cells.py:37 | The same three headers give `a`, `a-2`, `a-3` with the corrected recording. |
| Cells.InnerFrame | md2ipynb/bak/steps/paragraphs_to_cells.py:63 | `lines[1:-1]` is what lies between the first and the last line: putting them back around it gives the lines again. |
| Cells.FlushMarkdown | md2ipynb/bak/steps/paragraphs_to_cells.py:49-53 | Yielding the pending markdown empties it and keeps the last header. |
| Cells.EmitMarkdown | md2ipynb/bak/steps/paragraphs_to_cells.py:73-77 | The markdown-cell yield, with its `cell_id` call, does what `FlushMarkdown` describes. |
| Cells.ParagraphsToCells | md2ipynb/bak/steps/paragraphs_to_cells.py:24-77 | The generator yields exactly `Cells(ps)`: the fold of the loop body over the paragraphs, then the final flush. |
| Cells.CellsCoverParagraphs | md2ipynb/bak/steps/paragraphs_to_cells.py:43-77 | Reading the cells' paragraphs in order gives back every non-empty paragraph exactly once, in order; empty paragraphs are skipped. |
| Cells.CellsShape | md2ipynb/bak/steps/paragraphs_to_cells.py:48-72 | Each cell matches its paragraphs. A markdown cell joins consecutive paragraphs with `'\n\n'`, and only its first can be a header. A code cell holds the lines between the fence lines of one fenced paragraph, and is a form exactly when its source has `#@title` or `#@param`. |
| Cells.UniqueIds | md2ipynb/bak/steps/paragraphs_to_cells.py:25-39 | Every cell carries an id, and no two cells share a non-empty id. |
| Cells.FirstCellId | md2ipynb/bak/steps/paragraphs_to_cells.py:30-32 | The first id asked for is the slug itself. |
| Cells.SentinelIds | md2ipynb/bak/steps/paragraphs_to_cells.py:41 | Before any header, ids derive from the sentinel `_`: a text paragraph gets `_` and a code paragraph `_-code`. |
| NbgenCells.NextCellIdAsWritten | docs_nbgen.py:330-343 | The `docs_nbgen.py` `cell_id`, with its `while True` loop, computes `CellIdAsWritten`. |
| NbgenCells.EmitMarkdown | docs_nbgen.py:349-350 | The markdown-cell yield does what `FlushMarkdown` describes. |
| NbgenCells.StepParagraph | docs_nbgen.py:347-360 | One loop iteration moves the loop variables as `Step` describes, including the TypeError of `None + '-code'`. |
| NbgenCells.ParagraphsToCells | docs_nbgen.py:326-362 | The generator yields the cells of `Final(ps)` and reports whether it stopped on the TypeError. |
| NbgenCells.RaiseStops | docs_nbgen.py:357-358 | After the TypeError nothing more happens. |
| NbgenCells.CodeBeforeHeaderRaises | docs_nbgen.py:345-358 | A fenced paragraph before any header raises a TypeError, because the last header is still None. |
| NbgenCells.NoHeaderNoName | docs_nbgen.py:345 | Until a header is read there is no header name. |
| NbgenCells.RepeatedHeaderIds | docs_nbgen.py:341 | Three identical header paragraphs give three markdown cells whose second and third ids are equal while the first differs. |
| NbgenCells.CellsCoverParagraphs | docs_nbgen.py:347-362 | Without the error, every paragraph, empty ones included, lands in exactly one cell, in order. |
| NbgenCells.CellsShape | docs_nbgen.py:348-360 | Markdown cells join their paragraphs with `'\n\n'`. Code cells hold the lines between the fence lines of one fenced paragraph and are never forms. |
| Html.DigitRun | docs_nbgen.py:140 | The maximal leading run of ASCII digits (`\d+`). |
| Html.HeaderBody | docs_nbgen.py:140 | After `<hD>`, a match is the lazily shortest text up to the matching `</hD>` followed by whitespace only. The text it returns has no line break. |
| Html.HeaderMatchComplete | docs_nbgen.py:140 | Every line of the form whitespace, `<hD>`, text, `</hD>`, whitespace is recognised as a header of level D with the text trimmed. |
| Html.HeaderLine | docs_nbgen.py:153 | The Markdown header is `level + 1` characters longer than the text. |
| Html.HeaderLineShape | docs_nbgen.py:153 | The Markdown header is `level` `#` characters, a space and the text. |
| Html.ClassGroup | docs_nbgen.py:141 | The optional group `\s+class="..."` consumes no more than the text holds. |
| Html.PreMatch | docs_nbgen.py:141 | `html_code_block_re.search`: a match starts at the first `<pre` and ends on a `>` after it (which one, TagRestEnd). There is none exactly when there is no `<pre`, or no `>` after the first one. |
| Html.TagAt | docs_nbgen.py:141 | The tag at a given `<pre` ends on a `>` after it (which one, TagRestEnd), and there is a tag exactly when some `>` follows. |
| Html.TagRest | docs_nbgen.py:141 | After `<pre`, the tag runs up to and including a `>`, and nothing matches exactly when there is no `>` at all. |
| Html.TagRestEnd | docs_nbgen.py:141 | Which `>` ends the tag: when the `class="..."` group applies and a `>` follows it, the first `>` after the closing quote, so a `>` inside the quotes (`<pre class="a>b">`) does not end it; otherwise the group is dropped and the tag ends at the first `>`, with no classes. |
| Html.BarePreTag | docs_nbgen.py:141 | A bare `<pre>` after text free of `<` is found, with no classes. |
| Html.ClassTagRest | docs_nbgen.py:141 | ` class="X">` after `<pre` yields the classes X when X holds no `"`, even when X holds a `>`. |
| Html.Convert | docs_nbgen.py:139-174 | The generator emits exactly `HtmlToMarkdown(lines)`: the fold of the per-line rewrite, carrying the "inside `<pre>`" flag. |
| Html.ConvertLine | docs_nbgen.py:144-174 | One iteration of the loop emits the lines `Line` describes and sets the flag as it does. |
| Html.CloseLine | docs_nbgen.py:167-174 | The `</pre>` test and the final yield do what `Close` describes. |
| Html.OpenLine | docs_nbgen.py:147-165 | The header rewrite and the `<pre>` test, run outside a block, do what `Open` describes. |
| Html.OpenTagLine | docs_nbgen.py:155-163 | On the rewritten line, an opening `<pre>` tag emits the text before it and an empty line when there is such text, then the fence with the tag's classes, and leaves the rest of the line inside the block; a line with no tag passes through. |
| Html.HeaderBecomesMarkdown | docs_nbgen.py:147-153 | Outside a block, a header line becomes `#` repeated to its level, a space and the trimmed text. |
| Html.OpeningPre | docs_nbgen.py:156-165 | An opening tag emits the text before it and an empty line (when there is such text), then three backticks with the tag's classes, then the rest of the line, and enters the block. |
| Html.ClosingPre | docs_nbgen.py:167-174 | In a block, a line holding `</pre>` emits the text before it, three backticks and the remainder, and leaves the block. |
| Html.InsidePreVerbatim | docs_nbgen.py:145-147 | In a block, a line without `</pre>` is only right-stripped and never header-rewritten. |
| Html.UnclosedPre | docs_nbgen.py:167-174 | An unclosed `<pre>` keeps the block open to the end of input, and every later line is only right-stripped. |
| Html.PlainLinesStripped | docs_nbgen.py:139-174 | Lines with no header and no `<pre` tag are only right-stripped, and no block is ever opened. |
| Html.PlainLine | docs_nbgen.py:145-174 | Outside a block, a line with no header and no `<pre` tag comes out right-stripped. |
| Snippets.Indent | md2ipynb/read/github_sample.py:101 | `len(line) - len(line.lstrip())`: the leading whitespace, at most the whole line. |
| Snippets.ExtractSnippet | md2ipynb/read/github_sample.py:83-103 | `extract_snippet`, with its `break`, returns `Snippet(source, tag)`. The tag must be a word, because it is pasted into the regular expressions. |
| Snippets.FirstStart | md2ipynb/read/github_samples.py:49-50 | The index of the first `[START tag]` line, or the line count. |
| Snippets.FirstStartIsFirst | md2ipynb/read/github_samples.py:49-52 | No line before `FirstStart` is a START line, and the line at it is. |
| Snippets.FirstEnd | md2nb/convert.py:96-98 | The index of the first `[END tag]` line at or after a position, or the line count. |
| Snippets.FirstEndIsFirst | md2nb/convert.py:96-98 | No line between the position and `FirstEnd` is an END line, and the line at it is. |
| Snippets.MinIndentIsLeast | md2ipynb/read/github_sample.py:97-102 | The minimum indent is the least indentation of a non-blank line, reached by one of them; there is none exactly when every line is blank. |
| Snippets.NoStartIsEmpty | md2ipynb/read/github_sample.py:90-103 | Without a `[START tag]` line the snippet is `''`. |
| Snippets.SnippetIsRegion | md2nb/convert.py:93-102 | The lines taken are exactly those strictly between the first START line and the next END line, or to end of input without one. The minimum indent is computed over them. |
| Snippets.DedentStripsWhitespace | md2ipynb/read/github_sample.py:98-102 | Every output line is a suffix of its source line, and only whitespace is removed. |
| Snippets.DedentKeepsRelativeIndent | md2ipynb/read/github_samples.py:56-61 | Dedenting keeps the relative indentation of the non-blank lines, and some non-blank line ends with no indentation. |
| Convert.ShellCodeBlockLines | md2nb/convert.py:79-83 | Split again, the result has one line per input line. Every non-empty line not starting with `#` gets one `!`, and the others come back unchanged. |
| Convert.ShellRewritesDiffer | docs_nbgen.py:429-433 | On an interior line, the `filter_classes` shell rewrite and `shell_code_block` disagree exactly when the line is empty or starts with `#`: only `filter_classes` prefixes `!` to it. |
| Convert.MarkerUnderMatch | md2nb/convert.py:113 | The fourth line of `error_message` is `start` spaces followed by one `~` per matched character. |
| Convert.ErrorMessageLines | md2nb/convert.py:108-115 | Read back line by line, `error_message` is its header, an empty line, the offending line and the marker line. |
| BlockQuote.MarkerIndex | md2ipynb/document/block_quote.py:24 | The `>` of a delimiter sits at index 0 to 3 of the line. |
| BlockQuote.MatchesIff | md2ipynb/document/block_quote.py:31-33 | `matches` holds exactly when the line starts with 0 to 3 spaces followed by `>`. |
| BlockQuote.StripRemovesDelimiter | md2ipynb/document/block_quote.py:35-40 | The result is a suffix of the line. A non-matching line is returned unchanged. A matching line loses exactly 0 to 3 spaces, the `>` and at most one following space; a space right after the `>` is always taken. |
| Snippets.RunIsRegion | docs_nbgen.py:436-455 | With a START line, the loop ends having started and having taken the lines between the first START line and the first END line after it. It records whether it broke on the END line, and the minimum indent is that of those lines. |
| Convert.HeaderHasNoBreak | docs_nbgen.py:460 | The first line of `error_message`, `line N: message'` with its stray closing quote, holds no line break when the message holds none. |
| GfmParser.Get | md2ipynb/document/parser/parser.py:76-79 | `next(iterable, None)`: a line exactly when the position is inside the input. |
| GfmParser.WithLookahead | md2ipynb/document/parser/parser.py:75-82 | The generator's loop yields each line paired with its successor (`None` after the last) and then one `(None, None)`: one pair more than there are lines, the k-th being `(lines[k], lines[k+1])`. |
| GfmParser.ExpandTab | md2ipynb/document/parser/parser.py:216-220 | A tab after at most three spaces or `>` is widened to the next multiple of four columns; the line never gets shorter. |
| GfmParser.CollapseQuote | md2ipynb/document/parser/parser.py:222-225 | Up to three spaces before a `>` are dropped; a non-empty line stays non-empty. |
| GfmParser.ShiftIndent | md2ipynb/document/parser/parser.py:215-237 | One turn of the `_line_contents` loop computes exactly the specification step `Shift`: tab expansion at a tab stop, quote collapse, the mismatch exit, and the extra space after `>`. |
| GfmParser.StripIndents | md2ipynb/document/parser/parser.py:209-246 | The loop of `_line_contents` returns exactly `Contents(line, indents)`: the mismatch gives `None`, a blank rest with only blank indents left is kept, leftover indents give `None`. |
| GfmParser.ContentsOf | md2ipynb/document/parser/parser.py:210-212 | `line or self._line`: a result is only produced when a line was passed or the parser stands on one. |
| GfmParser.LineAt | md2ipynb/document/parser/parser.py:248-251 | The contents of the current row exist only while the row is inside the input. |
| GfmParser.TrimBlank | md2ipynb/document/parser/parser.py:177-179 | Popping trailing blank lines keeps a non-empty prefix of the lines that ends on a non-blank line, and every line dropped is blank. |
| GfmParser.IndentedLoop | md2ipynb/document/parser/parser.py:170-175 | The loop only appends: the lines collected so far stay a prefix, and the row never moves back. |
| GfmParser.IndentedSpec | md2ipynb/document/parser/parser.py:162-180 | No block leaves the parser on its row; a block never moves it back. |
| GfmParser.FencedLoop | md2ipynb/document/parser/parser.py:196-205 | The loop of the fenced block never moves the row back. |
| GfmParser.FencedSpec | md2ipynb/document/parser/parser.py:182-207 | A line that opens no fence gives no block and leaves the row; a block never moves it back. |
| GfmParser.FencedSpecLoop | md2ipynb/document/parser/parser.py:189-207 | A fenced block is the loop run from the row after the opening line, joined by newlines, with the first word of the info string as language. |
| GfmParser.FencedLoopNext | md2ipynb/document/parser/parser.py:198-205 | A line that is not a matching closing fence is appended and the loop goes on with the next row. |
| GfmParser.FencedLoopDone | md2ipynb/document/parser/parser.py:198-202 | At the end of the input or on a matching closing fence the loop stops with the lines it has. |
| GfmParser.IndentedLoopNext | md2ipynb/document/parser/parser.py:171-175 | One iteration steps one row on and appends the next line's contents when there are any. |
| GfmParser.NonBlankStep | md2ipynb/document/parser/parser.py:126-152 | Handling a non-blank line never moves the row back (indented code only without an open paragraph, fences even inside one). |
| GfmParser.BlocksFromBlank | md2ipynb/document/parser/parser.py:115-124 | A blank line yields the open paragraph, if any, and the walk resumes on the next row with no paragraph. |
| GfmParser.BlocksFromNonBlank | md2ipynb/document/parser/parser.py:126-153 | A non-blank line yields what its step emits, and the walk resumes after the row the step ended on with the paragraph the step left. |
| GfmParser.Parser.constructor | md2ipynb/document/parser/parser.py:71-72 | A new parser is reset to no lines and stands on row 1. |
| GfmParser.Parser.Reset | md2ipynb/document/parser/parser.py:74-91 | After `reset(lines)` the parser holds the lookahead pairs of `lines` and stands on row 1 on the first line. |
| GfmParser.Parser.LineContents | md2ipynb/document/parser/parser.py:209-246 | Returns `ContentsOf(indents, arg, current line)` and changes nothing. |
| GfmParser.Parser.Next | md2ipynb/document/parser/parser.py:248-254 | `_next` moves exactly one row on, and returns the contents of the new current line and of the one after it. |
| GfmParser.Parser.ParseCodeBlockIndented | md2ipynb/document/parser/parser.py:162-180 | The block and the row the parser ends on are exactly `IndentedSpec` of the row it started on. |
| GfmParser.Parser.IndentedStep | md2ipynb/document/parser/parser.py:171-175 | One iteration moves one row on, keeps the collected lines as a prefix and leaves the rest of the loop's result unchanged. |
| GfmParser.Parser.FencedStep | md2ipynb/document/parser/parser.py:198-205 | One iteration appends the non-closing line, moves one row on and leaves the rest of the loop's result unchanged. |
| GfmParser.Parser.ParseCodeBlockFenced | md2ipynb/document/parser/parser.py:182-207 | The block and the row the parser ends on are exactly `FencedSpec` of the row it started on. |
| GfmParser.Parser.ParseBlocks | md2ipynb/document/parser/parser.py:109-160 | The blocks yielded are exactly `BlocksFrom` the row the parser started on, with no open paragraph. |
| GfmParser.Parser.ParseStep | md2ipynb/document/parser/parser.py:113-153 | One iteration moves the row forward and splits the remaining output into what it yields now and `BlocksFrom` the new position. |
| GfmParser.Parser.ParseLine | md2ipynb/document/parser/parser.py:126-153 | The same for a non-blank line. |
| GfmParser.Parser.ParseBlank | md2ipynb/document/parser/parser.py:115-124 | A blank line yields the open paragraph, clears it and steps one row on. |
| GfmParser.Parser.ParseNonBlank | md2ipynb/document/parser/parser.py:126-152 | Yields, keeps and stops on the row exactly as `NonBlankStep` says. |
| GfmParser.Parser.ParseLines | md2ipynb/document/parser/parser.py:103-107 | The document `parse_lines(lines)` is evidently meant to build is exactly `Parse(lines)`, the walk from row 1 (as written the method raises; see Findings). |
| GfmDebug.Replay | md2ipynb/document/parser/parser.py:257-269 | `_call` pushes, `_return` pops, and popping an empty `_debug_stack` fails; with no events the stack is unchanged. |
| GfmDebug.ReplayAppend | md2ipynb/document/parser/parser.py:257-269 | Replaying two runs of stack events one after the other is replaying the first, then the second from where the first left the stack, and failure is final. |
| GfmDebug.ForestKeepsStack | md2ipynb/document/parser/parser.py:109-207 | Methods that pair each `_call` with a `_return`, as `_parse_blocks` and the code-block parsers do, leave the debug stack as they found it. |
| GfmDebug.TreeKeepsStack | md2ipynb/document/parser/parser.py:166-180 | One paired `_call`/`_return`, with paired calls inside it, leaves the debug stack as it found it. |
| GfmDebug.ParseLinesRaises | md2ipynb/document/parser/parser.py:74-107 | `parse_lines`, and `parse_string` through it, fails from every debug stack and for every input: `reset` empties the stack that its own `_return` then pops. |
| GfmParserFacts.PlainLineRewrites | md2ipynb/document/parser/parser.py:217-225 | Without tabs or `>`, neither the tab rewrite nor the quote rewrite changes the line. |
| GfmParserFacts.SpaceIndents | md2ipynb/document/parser/parser.py:209-246 | Inside `n` columns of spaces a plain line loses exactly those `n` spaces, an all-space line keeps nothing, and any other line is not inside. |
| GfmParserFacts.TabExpands | md2ipynb/document/parser/parser.py:216-220 | A tab after `k <= 3` spaces becomes the spaces up to column four. |
| GfmParserFacts.TabIndent | md2ipynb/document/parser/parser.py:214-246 | A tab after at most three spaces counts as a full tab stop: inside `n <= 4` columns of spaces such a line keeps the `4 - n` columns left over and its text. |
| GfmParserFacts.QuoteIndent | md2ipynb/document/parser/parser.py:222-237 | Inside one block quote, a tab-free line continues it exactly when `BlockQuote.matches` holds, and its contents are then what `strip_delimiters` leaves. |
| GfmParserFacts.OpenFenceOf | md2ipynb/document/parser/parser.py:183-191 | At most three spaces, a run of three or more backticks (info without backticks) or tildes, and an info string open a fence with that run and info. |
| GfmParserFacts.OpenFenceShape | md2ipynb/document/parser/parser.py:183-191 | Conversely every opening fence is such a line: at most three spaces, then a run of at least three equal fence characters, then the info. |
| GfmParserFacts.CloseFenceOf | md2ipynb/document/parser/parser.py:199-200 | A line of at most three spaces, a run and blank space closes the block exactly when its run starts with the opening run. |
| GfmParserFacts.CloseFenceShape | md2ipynb/document/parser/parser.py:199-200 | Conversely every closing line is at most three spaces, a run of at least three backticks or tildes that starts with the opening run, and blank space. |
| GfmParserFacts.RunStartsWith | md2ipynb/document/parser/parser.py:200 | A run starts with another exactly when they use the same character and the other is not longer: a closing fence must be at least as long as the opening one. |
| GfmParserFacts.LanguageOf | md2ipynb/document/parser/parser.py:192 | The language is the first whitespace-separated word of the info string. |
| GfmParserFacts.LanguageOfBlank | md2ipynb/document/parser/parser.py:192 | A blank info string gives the empty language. |
| GfmParserFacts.LineAtTop | md2ipynb/document/parser/parser.py:209-246 | With no containers the contents of a line are the raw line. |
| GfmParserFacts.FencedVerbatim | md2ipynb/document/parser/parser.py:196-205 | At the top level a fenced block keeps every line up to the closing fence verbatim (blank, indented and whitespace-only lines too), and without a closing fence runs to the end. |
| GfmParserFacts.FencedBlock | md2ipynb/document/parser/parser.py:182-207 | A fence opened on a row yields the lines after it up to the closing fence, joined by newlines, with the language of the info string, and the parser stops on the closing line or past the end. |
| GfmParserFacts.PlainContents | md2ipynb/document/parser/parser.py:209-246 | A plain line inside `n` columns of spaces has its dedented text as contents, any other line none. |
| GfmParserFacts.IndentedLoopRun | md2ipynb/document/parser/parser.py:170-175 | The loop collects the dedented lines up to the first line that is neither indented enough nor blank. |
| GfmParserFacts.IndentedRun | md2ipynb/document/parser/parser.py:162-180 | An indented code block holds every line up to the first line that is neither indented nor blank, with the indentation removed and trailing blank lines dropped. |
| GfmParserFacts.ContinuationLine | md2ipynb/document/parser/parser.py:126-152 | Indented code cannot interrupt a paragraph: inside an open paragraph a line that opens no fence is a continuation line whatever its indentation. |
| GfmParserFacts.StripTrimmed | md2ipynb/document/parser/parser.py:114 | `line.strip()` of a non-blank line has no whitespace at either end. |
| GfmParserFacts.ContinueTrimmed | md2ipynb/document/parser/parser.py:144-152 | Adding a line keeps every paragraph line trimmed. |
| GfmParserFacts.SpaceJoinTrimmed | md2ipynb/document/parser/parser.py:151 | Two trimmed texts joined by a space are trimmed. |
| GfmParserFacts.ContinueText | md2ipynb/document/parser/parser.py:144-152 | As text, the paragraph grows by the trimmed line after one space, or after a newline when the raw line ends with two spaces. |
| Results.MatchEta | md2ipynb/document/result.py:38-42 | Matching with the two constructors as handlers gives the same result back, and matching with constant handlers tells `Ok` from `Error`: `match` sends each case to its own handler. |
| Results.Map | md2ipynb/document/result.py:44-50 | `map f (Ok x) = Ok (f x)` and `map _ (Error e) = Error e`. |
| Results.ConstructorsCompareByValue | md2ipynb/document/result.py:28-60 | The dataclasses compare by value: two `Ok`s (two `Error`s) are equal exactly when their contents are, and an `Ok` never equals an `Error`. |
| Results.MapIdentity | md2ipynb/document/result.py:44-50 | Mapping the identity changes nothing. |
| Results.MapCompose | md2ipynb/document/result.py:44-50 | Mapping `f` then `g` is mapping their composition. |
| Results.MapKeepsSide | md2ipynb/document/result.py:44-50 | `map` never turns an `Ok` into an `Error` or back, and keeps the error. |
| Maybes.OfPyRoundTrip | md2ipynb/document/maybe.py:63-75 | `of` and `py` are inverse for maybes that do not hold `None`: `None` is `Nothing` and any other value a `Value`. |
| Maybes.MatchEta | md2ipynb/document/maybe.py:82-86 | Matching with `Value` and `Nothing` as handlers gives the same maybe back, and matching with constant handlers tells a value from `Nothing`: `match` sends each case to its own handler. |
| Maybes.FlatmapLaws | md2ipynb/document/maybe.py:94-98 | `flatmap` is a monad bind: left and right identity, associativity, and `Nothing` absorbs. |
| Maybes.Or | md2ipynb/document/maybe.py:109-112 | The first value if there is one, otherwise the second operand. |
| Maybes.OrLaws | md2ipynb/document/maybe.py:109-112 | The `or` operator is associative with `Nothing` as identity on both sides. |
| Maybes.Else | md2ipynb/document/maybe.py:118-119 | The value if there is one, otherwise the default. |
| Maybes.ElseOr | md2ipynb/document/maybe.py:109-119 | `else_` of the `or` of `a` and `b` with default `o` is `a.else_(b.else_(o))`. |
| Maybes.Filter | md2ipynb/document/maybe.py:123-125 | A value survives exactly when it satisfies the condition, and then unchanged. |
| Maybes.FilterTwice | md2ipynb/document/maybe.py:123-125 | Filtering twice is filtering by the conjunction. |
| Maybes.WhileTakeShape | md2ipynb/document/maybe.py:220-225 | The first `n` items of `while_(first, condition, next)`: each satisfies the condition, starts from the seed, follows `next`, and the stream ends early only on `Nothing` or a failed condition. |
| Maybes.WhileTakeExtends | md2ipynb/document/maybe.py:220-225 | Reading one item further only extends the prefix read before, so the prefixes describe one stream. |
| Maybes.WhileCountsToBound | md2ipynb/document/maybe_test.py:155-166 | `while_(Value(0), x <= 2, x + 1)` yields `[0, 1, 2]`. |
| Streams.Of | md2ipynb/document/stream.py:64-71 | `Stream.of(xs)` holds exactly the items of `xs`, in order. |
| Streams.OfItems | md2ipynb/document/stream.py:64-91 | Every finite stream is `Stream.of` its own items. |
| Streams.Iter | md2ipynb/document/stream.py:86-91 | The loop of `iter` yields exactly the stream's items in order. |
| Streams.Equal | md2ipynb/document/stream.py:96-110 | The loop of `__eq__` answers true exactly when the items agree, which is exactly when the streams are equal. |
| Streams.Join | md2ipynb/document/stream.py:132-135 | The items of the prefix, then those of the postfix. |
| Streams.Map | md2ipynb/document/stream.py:184-187 | Same length, and each item is `f` of the item at the same index. |
| Streams.Fold | md2ipynb/document/stream.py:152-178 | `None` on the empty stream; otherwise, for items that are not streams, the eager left fold from the first item (stream items take the lazy branch, FoldStreams). |
| Streams.FoldIsLeft | md2ipynb/document/stream.py:165-176 | Folding the stream is the left fold of its items. |
| Streams.FoldSubtracts | md2ipynb/document/stream_test.py:136-151 | Folding `[1, 2, 3]` with subtraction gives `-4`, i.e. `(1 - 2) - 3`. |
| Streams.Flatten | md2ipynb/document/stream.py:191-192 | The items of the streams, concatenated in order (an empty outer stream gives `End`). |
| Streams.FoldStreams | md2ipynb/document/stream.py:168-172 | The lazy branch of `fold` on stream items joins the running stream with the fold of the rest: its items are the running items followed by all the rest concatenated. |
| Streams.Flatmap | md2ipynb/document/stream.py:196-197 | The items are the concatenation of `f` applied to each item. |
| Streams.MapConcat | md2ipynb/document/stream.py:196-197 | `map` then `flatten` is that concatenation. |
| Streams.Or | md2ipynb/document/stream.py:206-209 | The left stream if it has items, otherwise the right one. |
| Streams.Filter | md2ipynb/document/stream.py:213-216 | The items that satisfy the condition, in order. |
| Streams.FilterBind | md2ipynb/document/stream.py:213-216 | `flatmap` with a one-item-or-empty function is exactly filtering. |
| Streams.While | md2ipynb/document/stream.py:223-228 | A prefix of the stream whose items all satisfy the condition, ending only at the end or before the first item that fails it. |
| ParserMonad.OrLaws | md2ipynb/document/parser_monad.py:57-70 | The `or` operator tries the right parser only when the left fails; it is associative with `Error()` as identity. |
| ParserMonad.FlatmapLaws | md2ipynb/document/parser_monad.py:78-85 | `flatmap` fails when its parser fails and is a monad bind: left and right identity, associativity. |
| ParserMonad.IfRuns | md2ipynb/document/parser_monad.py:95-99 | `if_` matches exactly when the parser does and the item satisfies the condition, and then as the parser. |
| ParserMonad.AnyCharRuns | md2ipynb/document/parser_monad.py:414-415 | `any_char` fails exactly on the empty text and otherwise reads one character. |
| ParserMonad.RepeatFrom | md2ipynb/document/parser_monad.py:121-135 | What the loop of `repeat_while` keeps: a chain of successive matches, all satisfying the condition, stopping where the next match fails or fails the condition; the rest is never longer. |
| ParserMonad.RunRepeatWhile | md2ipynb/document/parser_monad.py:121-135 | The loop computes exactly `RepeatFrom`. |
| ParserMonad.ZeroOrMoreRuns | md2ipynb/document/parser_monad.py:260-261 | `zero_or_more` never fails and reads successive matches up to where the parser fails. |
| ParserMonad.ZeroOrOneRuns | md2ipynb/document/parser_monad.py:241-245 | One item when the parser matches, none and the text unchanged otherwise. |
| ParserMonad.OneOrMoreRuns | md2ipynb/document/parser_monad.py:278-283 | `one_or_more` matches exactly when the parser matches once, then reads at least one item up to where it fails. |
| ParserMonad.UntilDelimiterRuns | md2ipynb/document/parser_monad.py:151-165 | The items before the first delimiter, then the delimiter consumed; no match when the input runs out first. |
| ParserMonad.UntilMaybeDelimiterRuns | md2ipynb/document/parser_monad.py:196-210 | The same items, never failing, and the delimiter consumed only when there is one. |
| ParserMonad.FirstIndex | md2ipynb/document/parser_monad.py:151-165 | The index of the first occurrence of a character, or the length when there is none. |
| ParserMonad.UntilCharDelimiter | md2ipynb/document/parser_monad.py:151-165 | `any_char().until_delimiter(c)` fails exactly when `c` does not occur. |
| ParserMonad.UntilCharRuns | md2ipynb/document/parser_monad.py:151-165 | It returns the text before the first `c` and the text after it. |
| ParserMonad.AtMostShape | md2ipynb/document/parser_monad.py:301-317 | At most `max` items, a chain of matches, fewer only where the parser fails. |
| ParserMonad.RunAtMost | md2ipynb/document/parser_monad.py:307-317 | The loop of `at_most` computes exactly `AtMostFrom`. |
| ParserMonad.AtMost | md2ipynb/document/parser_monad.py:301-306 | A `ValueError` with the source's message exactly when `max` is negative. |
| ParserMonad.AtMostTimes | md2ipynb/document/parser_monad.py:301-317 | `at_most(n)` reaches `n` items exactly when `n` successive matches exist. |
| ParserMonad.Exactly | md2ipynb/document/parser_monad.py:333-335 | A `ValueError` with the source's message exactly when `count` is negative. |
| ParserMonad.ExactlyIsTimes | md2ipynb/document/parser_monad.py:333-339 | `exactly(n)` is `n` successive matches or no match. |
| ParserMonad.AtLeast | md2ipynb/document/parser_monad.py:356-358 | A `ValueError` with the source's message exactly when `min` is negative. |
| ParserMonad.AtLeastRuns | md2ipynb/document/parser_monad.py:356-363 | `at_least(min)` matches exactly when `min` successive matches exist, and then reads at least `min` items up to where the parser fails. |
| ParserMonad.Between | md2ipynb/document/parser_monad.py:384-388 | A `ValueError` unless `0 <= min <= max`, with the message of the check that fails first. |
| ParserMonad.BetweenRuns | md2ipynb/document/parser_monad.py:384-393 | `between(min, max)` matches exactly when `min` successive matches exist, and then reads between `min` and `max` items. |
| ParserMonad.CharTestRuns | md2ipynb/document/parser_monad.py:414-415 | A character test reads the first character exactly when it passes. |
| ParserMonad.CharRuns | md2ipynb/document/parser_monad.py:424-435 | `char(c)` for a one-character string reads that character and nothing else. |
| ParserMonad.CharClasses | md2ipynb/document/parser_monad.py:424-455 | `char` of a set reads a member, `char_not` anything else. |
| ParserMonad.LeadingSpaces | md2ipynb/document/parser_monad.py:508-515 | The length of the run of spaces the text starts with. |
| ParserMonad.Indent | md2ipynb/document/parser_monad.py:508-515 | Building `indent(n)` raises `exactly`'s error for a negative width and `at_most(-1)`'s for width 0. |
| ParserMonad.IndentRuns | md2ipynb/document/parser_monad.py:508-515 | `indent(n)` reads `n` spaces, or fewer spaces followed by a tab; nothing else matches. |
| ParserMonad.IndentDefault | md2ipynb/document/parser_monad_test.py:686-695 | With four spaces per tab: four spaces and spaces-then-tab match, three spaces do not. |
| DocumentParser.WithReplacesSupplied | md2ipynb/document/parser.py:53-59 | `_with` replaces exactly the fields supplied and keeps the others. |
| DocumentParser.Advance | md2ipynb/document/parser.py:64-74 | Moving on keeps text and context, adds to the position, and starts a new row at column 1 after a newline, otherwise moves one column on. |
| DocumentParser.Char | md2ipynb/document/parser.py:121-138 | Building `char(ch)` raises `ValueError` exactly when `ch` is not one character long. |
| DocumentParser.CharRuns | md2ipynb/document/parser.py:139-144 | Past the end `IndexError`; on a match the character and the advanced state; on a mismatch a syntax error naming both characters, at the unchanged state. |
| DocumentParser.ParseValue | md2ipynb/document/parser.py:146-161 | The corrected `parse`: the value without the state on success, the same error or `IndexError` otherwise. |
| DocumentParser.ParseKeepsState | md2ipynb/document/parser.py:160-161 | As written, `parse` returns the value together with the final state; the corrected one returns `Ok('a')` as documented. |
| DocumentParser.ParseEmptyRaises | md2ipynb/document/parser.py:139-144 | Parsing the empty text with `char(c)` raises `IndexError`. |
| DocumentParser.WalkTracksRowAndColumn | md2ipynb/document/parser.py:64-74 | After reading `k` characters from the start, the row is one more than the newlines read and the column one more than the characters since the last newline. |

## Left out

- File and stdin I/O, template rendering and CLI parsing are not modelled: `run`, `read_lines`, `new_notebook`, `jinja_variables` and `main` in `docs_nbgen.py`, `md2ipynb/read/lines.py`, `md2nb/read/lines.py`, `md2ipynb/read/markdown_loader.py`, the `__main__` modules and `Parser.parse(filename)` of the GFM parser. The loops take in-memory sequences of lines and paragraphs instead.
- Network fetches are not modelled: `code_block`, `github_samples` and `GithubSampleExt` with its cache.
- The nbformat wrappers are not modelled: `new_markdown_cell`, `new_code_cell`, `view_the_docs` and `open_in_colab`. A cell is an abstract record: markdown or code, an optional id, and a form-view flag.
- `re_filter` and `re_replace` are not modelled, because they apply user-supplied regular expressions with full Python `re` semantics.
- The `language` step and the `github_samples` step in `docs_nbgen.py` are no-op stubs and are not modelled.
- Dead, abstract or commented-out modules are not modelled: `parser_combinator.py`, `markdown_parser.py`, `parser_bak/parse_markdown.py`, `quantifier.py`, `monad.py`, `paragraph.py` and `text.py`. `document/block.py` and `document/code_block.py` are not part of this model; a block is a datatype here.
- The log messages of the GFM parser's `_call`, `_return` and `_debug` are not modelled. Their effect on `_debug_stack` is modelled in GfmDebug, and the failing pop it leads to is listed under Findings.
- Character classes are ASCII: whitespace (space, `\t`, `\n`, `\r`, `\x0b`, `\x0c` and the separators `\x1c`-`\x1f`, as `str.isspace` has them), word characters, digits, letters and case. Unicode whitespace such as `\x85` and `\xa0` is not modelled. `str.isalpha`, `\w` and `str.lower` in the source also accept Unicode. The `digit`, `letter`, `lowercase`, `uppercase`, `alphanumeric` and `space` combinators are not modelled for the same reason.
- The `text_*` combinators of `parser_monad.py` are not modelled; each only joins the list its list-valued twin returns.
- `splitlines` is modelled as splitting on `\n` only; Python also splits on `\r`, `\r\n` and other line separators.
- A Python one-character string is modelled as a `char` wherever the source reads characters one at a time.
- Generator and thunk laziness is not modelled. Streams are finite datatypes, generators yield a finite sequence, and `fold`'s lazy combining function is modelled by its value.
- Streams.Of: `Stream.of` gives every node a thunk that pulls from one shared iterator (md2ipynb/document/stream.py:65-69), so a second walk of the same stream sees only its first item; the model's streams are values that every walk reads in full.
- Maybes.OfPyRoundTrip: a `Value` holding `None` is not modelled. Python's `py` maps `Maybe.Value(None)` to `None`, like `Nothing` (md2ipynb/document/maybe.py:74-75), so `of(py(m)) == m` fails there; the model's values are never `None`.
- The `Stream` class inside `maybe.py` is not modelled. It repeats `stream.py` (`__init__` from an iterator, `py`, `match_stream`, `while_`); only the module-level `while_` is modelled.
- Maybes.WhileTakeShape: `while_` may yield an infinite stream, so the model describes its first `n` items for every `n`, and WhileTakeExtends shows these prefixes agree.
- ParserMonad.RepeatFrom, ParserMonad.RunRepeatWhile, ParserMonad.ZeroOrMoreRuns, ParserMonad.OneOrMoreRuns, ParserMonad.AtLeastRuns, ParserMonad.UntilDelimiterRuns and ParserMonad.UntilMaybeDelimiterRuns require a parser that consumes input whenever it matches. On a parser that matches without consuming, the source's loop may never end.
- DocumentParser.Char: the `ValueError` message holds `repr(ch)`, which is not modelled; only the failure itself is.
- Sections.SplitSections requires every paragraph to be non-empty, because the source indexes `paragraph[0]` and raises `IndexError` on an empty one. The paragraph stages never yield one (Paragraphs.NoEmptyParagraph, AnnotatedParagraphs.NoEmptyParagraph).
- Imports.NormalisedTargets requires every normalised index to be non-negative and no two keys to share one. Outside that, the source's loop, which changes the dict while iterating over it, either raises `RuntimeError` (a target that is already a key shrinks the dict) or moves a key a second time (a negative target). That behaviour is not modelled. Python 3.8 and later also raise on any key added during the iteration; the source's tests with negative indices expect the older behaviour, which the model follows.
- Snippets.ExtractSnippet requires the tag to be made of word characters, because the source splices it unescaped into a regular expression.
- Convert.ShellCodeBlockLines: stated for a non-empty source without a trailing line break; `splitlines` then gives the line count of `'\n'.join`.
- GfmParserFacts.SpaceIndents, GfmParserFacts.PlainContents and GfmParserFacts.IndentedRun describe lines without tabs and without `>`. Tabs and block quotes are covered one line at a time by TabIndent and QuoteIndent.

## Findings

| source | as written | input that shows it | evidently intended | confidence | as-written member | corrected member |
|---|---|---|---|---|---|---|
| docs_nbgen.py:341 | `cell_id` records the plain slug `name` in `used_ids` instead of the numbered id it returns | the header `A` three times gives the ids `a`, `a-2`, `a-2` | `a`, `a-2`, `a-3`, as `md2ipynb/bak/steps/paragraphs_to_cells.py:37` records the numbered id | not executed | CellIds.ThreeHeadersAsWritten | CellIds.ThreeHeadersCorrected |
| md2ipynb/document/parser/parser.py:103-107 | `parse_lines` calls `reset`, which empties `_debug_stack`, after its own `_call` pushed onto it, so the `_return` that follows pops an empty list and raises `IndexError` | any lines, e.g. `parse_lines([])` | `Document()` for no lines, as `md2ipynb/document/parser/parser_test.py:335-336` expects, and in general the document of the walk | not executed | GfmDebug.ParseLinesRaises | GfmParser.Parser.ParseLines |
| md2ipynb/document/parser.py:160-161 | `parse` returns the runner's result, a `(value, state)` pair | `parse('abc')` with `char('a')` gives `Ok(('a', State('abc', 1, 1, 2, '')))` | `Ok('a')`, the value alone, as the doc comment (lines 151-157) and `parser_test.py:68-74` state | not executed | DocumentParser.ParseKeepsState | DocumentParser.ParseValue |
