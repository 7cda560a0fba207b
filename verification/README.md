# Markdown generation core, modelled in Dafny

This project models the pure core of the SimplrJS `markdown` library. The library
turns structured data into lines of Markdown text:

- **TableGenerator** renders a header list and a grid of rows as a GitHub-flavoured
  table: a header line, an alignment separator line and one line per row. Short rows
  are padded with `""`. Every column is as wide as its widest text. Every cell has the
  form `| <trimmed text padded to the width> `, and only the last cell closes with `|`.
- **ListGenerator** renders a nested `MarkdownList` (strings and sublists) as indented
  lines, four spaces per level, in depth-first pre-order.
- **Helpers.FillArray** pads a sequence to a given length with a fill element.
- **MarkdownGenerator** has `header` (ATX), `underlineHeader` (setext) and
  `blockquote`.
- **MarkdownBuilder** is a fluent accumulator of output lines. Every method appends.

One module per file:

| file | module |
|---|---|
| `wrappers.dfy` | `Wrappers`: `Option` and `Result`. A thrown error is a `Failure`. |
| `strings.dfy` | `Strings`: the few `string` library operations the code calls (`trim`, `repeat`, `padRight`, `padLeft`, `lines`, number formatting), re-specified. |
| `helpers.dfy` | `Helpers` |
| `table_generator.dfy` | `TableGenerator` |
| `list_generator.dfy` | `ListGenerator` |
| `markdown_generator.dfy` | `MarkdownGenerator` |
| `markdown_builder.dfy` | `MarkdownBuilder` |

Modelling choices:

- **Strings.** A `string` is a sequence of `char`, and a Dafny `char` is one Unicode
  scalar value. The original's `length` counts UTF-16 code units. The two agree on
  text inside the Basic Multilingual Plane, which is the text this model describes.
  `trim` removes the ECMAScript whitespace and line-terminator characters.
- **Builder.** The builder is a value, `Builder(output)`. Each method is a function
  from one builder to the next. `Header` and `UnderlineHeader` return a `Result`,
  because the generator they call throws on a bad level.
- **Chains.** A chain of builder calls is modelled as a sequence of `Op` values run by
  `Run`, which stops at the first error.
- **Lists.** `renderList` is modelled as a method with the same loop. The loop keeps a
  mutable level and bumps it in place on every sublist. Its output is proved equal to
  an independent, element-by-element reference layout (`ListLayout`). The positional
  properties are proved about that layout.
- **Tables.** The table is modelled with the remove-empty-column flag off. The flag is
  read from the misspelled option key `removeColummIfEmpty`, so options of the
  declared type never set it. `GetMaxColumnWidth` keeps the flag as a parameter.

Behaviours of the code that the model keeps as they are:

- **List numbering and indentation.**
  - A leaf's number is its position among all its siblings, sublists included. Numbers
    therefore skip after a sublist, even an empty one.
  - The level is incremented in place before recursing, so every later sibling stays
    one level deeper.
- **Blockquote.** `blockquote` trims both ends of each line, so left indentation is
  lost. It splits the text into lines without trimming the whole input first.
- **Center alignment.** `center` renders like `none`: plain dashes, with no colons.
- **Escaping.** The table renderer escapes nothing: a `|` inside a cell is emitted as
  it is.

## Model

| member | source | states |
|---|---|---|
| Helpers.FillArray | src/utils/helpers.ts:2-15 | When `length <= |arr|` the result is `arr` unchanged. Otherwise the length is exactly `length`. The first `|arr|` elements are `arr`, every added element is `element` (default `""`), and nothing is ever truncated. |
| Helpers.FillArrayCompose | src/utils/helpers.ts:2-15 | Padding to `m` and then to `n >= m` equals padding to `n` directly, so padding twice is padding once. |
| TableGenerator.GetHeaderText | src/generators/table-generator.ts:115-124 | The text of a bare string header is the string itself, and the text of a `TableHeader` is its `text`. |
| TableGenerator.GetHeaderAlign | src/generators/table-generator.ts:126-132 | A bare string header is unaligned (`none`). A `TableHeader` gives its own alignment. |
| TableGenerator.MaxCellLength | src/generators/table-generator.ts:135-141 | The `forEach` fold is at least the length of every present cell. It equals one of those lengths, or 0 when no cell is present. |
| TableGenerator.GetMaxColumnWidth | src/generators/table-generator.ts:134-150 | The width is at least every present cell's length. With `removeIfEmpty` set and every cell missing or empty, it is 0 whatever the header's length. Otherwise it is at least the header's length and equals the header's length or some cell's length. |
| TableGenerator.FillRows | src/generators/table-generator.ts:17-25 | Same number of rows. Each row gets length `max(|row|, header count)`, its existing cells unchanged and the added cells `""`. |
| TableGenerator.FillArray | src/generators/table-generator.ts:152-159 | The push loop pads exactly as `Helpers.FillArray` with its default `""`. |
| TableGenerator.ColumnWidths | src/generators/table-generator.ts:17-26 | With the flag off, each column's width is at least its header text's length and every cell's length in that column, and equals one of them. |
| TableGenerator.RenderCell | src/generators/table-generator.ts:104-113 | A cell is as long as the wider of the trimmed text and the column, plus 3 for `"| "` and the trailing space, plus 1 for the closing `|`. Its last character is `|` exactly when it closes the line. |
| TableGenerator.RenderCellLayout | src/generators/table-generator.ts:104-113 | A cell has length `max(|trim(text)|, width) + 3`, plus 1 when closing. It starts with `"| "`, then the trimmed text, then spaces up to the width and one more. Its last character is `|` exactly when `close` is set. |
| TableGenerator.CellStart | src/generators/table-generator.ts:104-106 | A cell begins with `"| "` followed by the trimmed text. |
| TableGenerator.RenderCells | src/generators/table-generator.ts:93-98 | A line of no cells is empty. Any other line ends with the closing `|` of its last cell. |
| TableGenerator.CellsLength | src/generators/table-generator.ts:93-98 | When every trimmed text fits its column, the line is exactly `LineWidth(widths)` long. |
| TableGenerator.CellTextAt | src/generators/table-generator.ts:93-98 | When every trimmed text fits its column, cell `j` can be read back from the line. It starts at `CellOffset(widths, j)` with `"| "` and the trimmed text `j`. |
| TableGenerator.AlignText | src/generators/table-generator.ts:59-78 | `left` gives `:` followed by dashes. `right` gives dashes followed by `:`. Both have length `max(1, width)`, so the colon survives a 0-wide column. `center` and `none` give exactly `width` dashes. |
| TableGenerator.AlignTextTrimmed | src/generators/table-generator.ts:59-80 | The trim in `renderCell` leaves a separator text unchanged. |
| TableGenerator.RenderTableHeader | src/generators/table-generator.ts:83-86 | The header part is exactly two lines: the header line and the separator line. |
| TableGenerator.RenderTableContents | src/generators/table-generator.ts:89-102 | One line per row. |
| TableGenerator.RenderTable | src/generators/table-generator.ts:11-46 | Exactly `2 + |content|` lines, so an empty grid gives only the header and separator lines. Rows may not be longer than the header list. |
| TableGenerator.HeaderLineLength | src/generators/table-generator.ts:53-57 | When every header text fits its column, the header line is `LineWidth(widths)` long. |
| TableGenerator.RowLineLength | src/generators/table-generator.ts:93-97 | When every cell fits its column, a row's line is `LineWidth(widths)` long. |
| TableGenerator.ContentLinesLength | src/generators/table-generator.ts:89-101 | Every content line of a grid whose cells fit is `LineWidth(widths)` long. |
| TableGenerator.TableLinesAligned | src/generators/table-generator.ts:41-45 | The header line and every content line of a rendered table have the same length, `LineWidth` of the computed widths. |
| TableGenerator.SeparatorAligned | src/generators/table-generator.ts:53-81 | The separator line has that length too, provided no left- or right-aligned column is 0 wide. |
| TableGenerator.SeparatorCellText | src/generators/table-generator.ts:59-80 | Under the same proviso, column `j`'s marker can be read back from the separator line at its column's offset: `:` then dashes for `left`, dashes then `:` for `right`, and plain dashes for `center` and `none`. |
| TableGenerator.HeaderCellText | src/generators/table-generator.ts:53-57 | Every header's trimmed text can be read back from the header line at its column's offset. |
| TableGenerator.ContentLine | src/generators/table-generator.ts:41-43 | Line `2 + i` of the table renders filled row `i` with the table's widths. |
| TableGenerator.ContentCellText | src/generators/table-generator.ts:18-24 | Every cell the caller gave can be read back, trimmed, from its row's line at its column's offset. The cells added by padding are empty. |
| TableGenerator.EmptyLeftColumnExample | src/generators/table-generator.ts:61-65 | A left-aligned column with empty header and cells is 0 wide. It renders `"|  |"`, `"| : |"`, `"|  |"`, so its separator is wider than the other lines. |
| TableGenerator.ExampleWidths | src/generators/table-generator.ts:134-150 | The widths of the `Property`/`Value` example table are 8 and 6. |
| TableGenerator.PropertyValueExample | src/generators/table-generator.ts:11-113 | The `Property`/`Value` example renders exactly four lines: the header line, the dash separator and one padded line per row. |
| ListGenerator.Symbol | src/generators/list-generator.ts:13-18 | An unordered list with a symbol uses that symbol. Otherwise the symbol is the position plus one, followed by a dot. |
| ListGenerator.GetListItem | src/generators/list-generator.ts:31-36 | A line is `4 * level` spaces, the symbol, one space, then the trimmed text. |
| ListGenerator.ListItemIndent | src/generators/list-generator.ts:31-36 | The count of leading spaces gives back `4 * level` whenever the symbol does not start with a space. |
| ListGenerator.LeafLine | src/generators/list-generator.ts:11-20 | The line pushed for a leaf is `GetListItem` with the chosen symbol. |
| ListGenerator.RenderList | src/generators/list-generator.ts:6-29 | The loop that bumps the level in place produces exactly the formatted reference layout `ListLayout`. |
| ListGenerator.LayoutTexts | src/generators/list-generator.ts:9-26 | The layout has one entry per string leaf, in depth-first pre-order. |
| ListGenerator.RenderedLineOfLeaf | src/generators/list-generator.ts:9-36 | There are exactly as many lines as leaves, and line `k` ends with the trimmed text of leaf `k`. |
| ListGenerator.UniformSymbol | src/generators/list-generator.ts:14-23 | In an unordered list with a symbol, every leaf at every depth uses that symbol. |
| ListGenerator.LayoutPrefix | src/generators/list-generator.ts:9-26 | The lines of the first `j` elements are a prefix of the lines of the whole list. |
| ListGenerator.LeafPosition | src/generators/list-generator.ts:9-20 | Leaf `i` comes right after the leaves of the elements before it. Its level is the start level plus the number of sublists before it, and its number is `i + 1`. |
| ListGenerator.SublistPosition | src/generators/list-generator.ts:21-24 | A sublist's own layout, numbered from 1 and one level below the level reached before it, appears right after the leaves of the elements before it. |
| ListGenerator.EmptySublistExample | src/generators/list-generator.ts:9-26 | An ordered `["a", [], "b"]` renders `"1. a"` and `"    3. b"`: the empty sublist adds no line but shifts the number and level of `b`. An empty list renders nothing. |
| MarkdownGenerator.Header | src/markdown-generator.ts:4-20 | Fails with the range message exactly when the level is outside 1..6. Otherwise the line is exactly `level` hashes, a space, and the trimmed text. With `closing`, the text is followed by a space and the same hashes. |
| MarkdownGenerator.UnderlineHeader | src/markdown-generator.ts:22-37 | Fails with the range message exactly when the level is outside 1..2. Otherwise the result is two lines: the trimmed text, and a rule of the same length made of `=` for level 1 or `-` for level 2. |
| MarkdownGenerator.Blockquote | src/markdown-generator.ts:39-52 | One output line per input line, each quoted by `QuoteLine`: an empty line becomes `">"`, any other line becomes `"> "` plus the line trimmed. |
| MarkdownGenerator.QuoteLineFacts | src/markdown-generator.ts:43-48 | A quoted line starts with `>` and has no line break. Removing the marker gives back the trimmed input line. |
| MarkdownGenerator.BlockquoteLines | src/markdown-generator.ts:39-52 | The output has one more line than the input has `\n`. Every line starts with `>` and has no line break, and unquoting line `k` gives input line `k` trimmed. |
| MarkdownGenerator.BlockquoteBlankLine | src/markdown-generator.ts:47-48 | A non-empty line of only whitespace becomes `"> "`. |
| MarkdownGenerator.BlockquoteCrlfExample | src/markdown-generator.ts:42-46 | `blockquote("x\r\n\r\ny")` is `["> x", ">", "> y"]`: each `\r\n` is one line break, and the blank line between them gets the bare marker. |
| MarkdownGenerator.LevelOneHeader | src/markdown-generator.ts:12-19 | For a text with no surrounding whitespace, a level-1 header is `"# "` and the text, and its closed form adds `" #"`. |
| MarkdownGenerator.HeaderExamples | __tests__/markdown-generator.test.ts:13-23 | `header("Some text", 1)` is `"# Some text"`, and `header("Some text", 1, true)` is `"# Some text #"`. |
| MarkdownGenerator.HeaderExampleOutOfRange | __tests__/markdown-generator.test.ts:9-11 | Levels 7 and 0 are rejected with the range message. |
| MarkdownGenerator.UnderlineHeaderExample | __tests__/markdown-generator.test.ts:31-40 | `underlineHeader("Some text", 1)` is the text over nine `=`, and level 3 is rejected. |
| MarkdownBuilder.ResolveInput | src/markdown-builder.ts:141-153 | A string becomes a one-line list, a list is taken as it is, and a builder contributes its current output. |
| MarkdownBuilder.New | src/markdown-builder.ts:18-20 | With no argument the output is empty. Seeded with lines, it is those lines. Seeded with a builder, it is that builder's output. |
| MarkdownBuilder.GetOutput | src/markdown-builder.ts:155-157 | The accumulated lines themselves, in the order they were added. |
| MarkdownBuilder.Text | src/markdown-builder.ts:129-133 | The old output is kept as a prefix, followed by exactly the resolved lines. A builder argument is accepted too, as `resolveInput` accepts it at run time. |
| MarkdownBuilder.NewLine | src/markdown-builder.ts:135-139 | Exactly one `""` is appended and the earlier lines are unchanged. |
| MarkdownBuilder.Blockquote | src/markdown-builder.ts:36-40 | The resolved lines are appended verbatim, without a `> ` marker. |
| MarkdownBuilder.Header | src/markdown-builder.ts:24-28 | Fails exactly when the generator does. Otherwise exactly the generator's one line is appended to the unchanged output. |
| MarkdownBuilder.UnderlineHeader | src/markdown-builder.ts:30-34 | Fails exactly when the generator does. Otherwise exactly the generator's two lines are appended to the unchanged output. |
| MarkdownBuilder.AppendLine | src/markdown-builder.ts:79-111 | The methods that push one generated line append exactly that line and change nothing else. These are `HorizontalRule`, `Italic`, `Bold`, `StrikeThrough` and `InlineCode` at these lines, and `Link`, `LinkDefinition` and `Image` at lines 42-65. |
| MarkdownBuilder.AppendLines | src/markdown-builder.ts:117-127 | The methods that concatenate generated lines keep the old output as a prefix, followed by exactly those lines. These are `Code` and `Table` at these lines, and `UnorderedList` and `OrderedList` at lines 67-77. |
| MarkdownBuilder.StepAppends | src/markdown-builder.ts:24-139 | Every method call succeeds exactly when its generator does. The new output is then the old output followed by the call's own lines. |
| MarkdownBuilder.RunAppends | src/markdown-builder.ts:24-139 | A chain of calls fails with the first error. Otherwise its output is the starting output followed by every call's lines in order. |
| MarkdownBuilder.RunKeepsPrefix | src/markdown-builder.ts:24-139 | Append-only: the output before a chain is a prefix of the output after it. |
| MarkdownBuilder.SeedKeepsPrefix | src/markdown-builder.ts:18-20 | A builder seeded with another starts with that builder's output, and keeps it as a prefix through any later chain. |
| MarkdownBuilder.ChainExample | src/markdown-builder.ts:24-139 | `Header("X", 1)`, `NewLine()`, `Text("hi")` on a new builder give `["# X", "", "hi"]`. |
| Strings.TrimSpec | src/generators/table-generator.ts:105 | `trim` gives a result with no whitespace at either end. The result is a contiguous slice of the input, and everything removed before and after it is whitespace. |
| Strings.TrimIdempotent | src/generators/table-generator.ts:105 | Trimming twice is trimming once. |
| Strings.Trim | src/generators/table-generator.ts:105 | Trimming never lengthens a string. What it keeps is stated by `TrimSpec`. |
| Strings.TrimAllWhitespace | src/markdown-generator.ts:47 | A string of only whitespace trims to `""`. |
| Strings.Repeat | src/markdown-generator.ts:12 | `repeat(c, n)` is `n` copies of `c`. |
| Strings.PadRight | src/generators/table-generator.ts:106 | `padRight` has length `max(|s|, n)`. It starts with `s` and is filled after it with the pad character. It never truncates. |
| Strings.PadLeft | src/generators/table-generator.ts:68 | `padLeft` has length `max(|s|, n)`. It ends with `s` and is filled before it with the pad character. It never truncates. |
| Strings.NormalizeNewlines | src/markdown-generator.ts:42 | Rewriting `\r\n` as `\n` keeps the number of `\n`, and leaves a string without `\r` unchanged. |
| Strings.Split | src/markdown-generator.ts:42 | Splitting gives one more piece than there are separators. No piece contains the separator, and joining the pieces gives the input back. |
| Strings.Lines | src/markdown-generator.ts:42 | `lines()` gives one more line than there are `\n`, no line contains `\n`, and joining them gives the normalised input. |
| Strings.NormalizeWithoutLineFeed | src/markdown-generator.ts:42 | Text without a `\n` is left unchanged by normalisation. |
| Strings.NormalizeAppend | src/markdown-generator.ts:42 | Normalising two pieces joined together is normalising each piece, unless the join splits a `\r\n` in two. |
| Strings.NormalizeCrlfJoin | src/markdown-generator.ts:42 | Normalising lines joined with `\r\n` gives the same lines joined with `\n`. |
| Strings.SplitJoin | src/markdown-generator.ts:42 | Splitting separator-free pieces joined by the separator gives back exactly those pieces. |
| Strings.LinesOfCrlf | src/markdown-generator.ts:42 | `lines()` of `\n`-free lines joined with `\r\n` gives back exactly those lines, so every `\r\n` is one line break and no `\r` is left over. |
| Strings.NatToString | src/generators/list-generator.ts:17 | A number is rendered as at least one decimal digit, with no leading zero. |
| Strings.NatToStringRoundTrip | src/generators/list-generator.ts:17 | Reading the rendered digits back gives the number. |
| Strings.NatToStringInjective | src/generators/list-generator.ts:17 | Different numbers render differently, so different positions get different symbols. |

## Left out

- The remove-empty-column path of `renderTable` (src/generators/table-generator.ts:28-37) is not modelled. It splices `headers` and the rows while iterating them, which skips columns and reuses stale widths. It is also unreachable, because the flag is read from the misspelled key `removeColummIfEmpty`. `GetMaxColumnWidth` still models the flag.
- Rows longer than the header list are excluded by the `RowsFit` precondition. The original reads an undefined width for them.
- An empty header list is allowed only with empty rows. The original then renders empty lines, as the model does.
- TableGenerator.RenderTableHeader: states only that there are two lines. The header line's contents are stated by `HeaderLineLength` and `HeaderCellText`, and the separator line's by `SeparatorAligned` and `SeparatorCellText`.
- TableGenerator.RenderTableContents: states only that there is one line per row. The contents are stated by `ContentLinesLength`, `ContentLine` and `ContentCellText`.
- Reference aliasing and in-place mutation are not modelled: `fillArray` mutates the caller's rows, and builders share output arrays by reference. Sequences here are values.
- The builder methods return `this` for chaining. The model returns the next builder value instead, so object identity is not modelled.
- Non-finite or non-numeric header levels are not modelled; levels are unbounded integers. Their `isFinite` check would reject them with a different message.
- Fractional numbers are not modelled. Header levels and `FillArray` lengths are integers here, but the original accepts any `number`. `underlineHeader("t", 1.5)` passes the range check and, because 1.5 is not 1, returns `["t", "-"]`. `FillArray([], 2.5)` pushes three elements, because its loop runs while `i < count` with `count` equal to 2.5.
- Text outside the Basic Multilingual Plane is not modelled. There the original's `length` counts two UTF-16 code units per character, so a header of one emoji gets a column width of 2 and a separator `--`. A Dafny `char` counts it once, and it cannot stand for a lone surrogate code unit.
- The `TextHandler` callback form of `Text` and `resolveInput` is left out. It is a higher-order call into the whole generator.
- `MarkdownBuilder.AppendLine` and `MarkdownBuilder.AppendLines` stand for `Link`, `LinkDefinition`, `Image`, `HorizontalRule`, `Italic`, `Bold`, `StrikeThrough`, `InlineCode`, `UnorderedList`, `OrderedList`, `Code` and `Table`. The generated lines are taken as an argument, because the capitalised generator members these methods call are not part of the generator code in this model.
- `MarkdownBuilder.Header` and `MarkdownBuilder.UnderlineHeader` call the generator's `header` and `underlineHeader`. The original calls capitalised `Header` and `UnderlineHeader` members, which the generator does not define.
- The `string` library is not part of this model. Its `trim`, `repeat`, `padRight`, `padLeft` and `lines` are re-specified in `Strings`, and `trim` uses the ECMAScript whitespace set.
- Options with no implementing code are left out: escaping options, `removeRowIfEmpty`, and a distinct center alignment.
- The debugging driver script `src/debug.ts` is left out.
- The module-level builder call at src/markdown-builder.ts:160-161 is left out. Its callback calls `md.Bold`, which the generator does not define, so in the code as given it throws when the module loads. This is the same missing-member mismatch as the capitalised builder calls above.
- Properties are not derived from tests that call `EmptyLine` or `Build`, which the builder does not define, nor from the multi-line blockquote test that expects a string instead of an array.
