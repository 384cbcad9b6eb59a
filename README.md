# zf: a model of the scriptfile task runner

zf reads a file named `scriptfile` from the current directory. The file declares named,
parameterised shell scripts:

```
# comment
greet name
  echo "hello $name"
```

A header line gives a script's name and its parameter names. The indented lines after it
are the script's body. When `zf greet world` runs:

- the file is parsed;
- the first script called `greet` with at most one parameter is selected;
- its body is echoed with a `"> "` prefix;
- the body is run as `$SHELL -c <body> greet`, with the environment variable `name` set to
  `world` and any arguments left over after the parameters appended to the command.

With no arguments, zf prints the file.

All of this lives in `src/main.rs`. The model is split into these modules:

- `Text` (`text.dfy`): the Rust string operations the program relies on, with Rust's meaning:
  - `char::is_whitespace`;
  - `split_whitespace`;
  - `trim_end`;
  - `str::lines`, which drops the `'\r'` of a `"\r\n"` ending;
  - counting leading spaces.
- `Scripts` (`script.dfy`): the `Script` record and `Script::from`, which turns one
  header/body pair into a script.
- `Scriptfile` (`scriptfile.dfy`):
  - the grammar `(comment* header body*)* comment*` as a recogniser over the file's lines;
  - extraction of the scripts from a file that matches;
  - `Parse`;
  - `Render`, an inverse of `Parse`, with the round trip `Parse(Render(ss)) == Ok(ss)`.

  This is the parser the rest of the model uses. It is the corrected reading of the
  program's regular expressions; see "## Findings".
- `AsWritten` (`as_written.dfy`): the two regular expressions of `parse` as the program
  writes them, character by character:
  - leftmost-first matching;
  - `[^# ]` also matches `'\n'`;
  - `captures_iter` is an unanchored search.

  It includes:
  - a proof that everything the line grammar accepts, the program's regular expression
    accepts too;
  - three inputs on which the two parsers differ (see "## Findings"). These are examples, not a complete list of the differences.
- `Selection` (`select.dfy`): the `find` in `main`, which picks the first script with the
  requested name and no more parameters than there are arguments.
- `Launching` (`run.dfy`): `Script::run` up to the spawn. It is a method whose loop builds
  the environment one `cmd.env` at a time, and it returns the program, argument vector and
  environment it would launch.
- `Preview` (`preview.dfy`): `Script::print` as a method whose loop collects the output
  lines.
- `Cli` (`cli.dfy`): `main` from the file text onward. Its steps, in the program's order:
  1. parse;
  2. usage;
  3. select;
  4. preview;
  5. launch.

Errors are values. `Result`/`Option` come from `Scripts`; `ParseError` is
`Malformed | MissingName`; `SelectError.NoMatchingScript(name, arity)`;
`RunError.ShellUnset`.

### Behaviour that follows the code

These are places where a description of this tool could suggest otherwise; the model
follows `src/main.rs`:

- There is no `...` variadic marker. A header word `...` is an ordinary parameter name.
- A script is chosen when it has *at most* as many parameters as there are arguments, not
  exactly as many. The first such script in file order wins (`src/main.rs:90`).
- The preview strips the leading-space count of the body's *first* line from every line,
  clamped to the line's length. It does not strip the minimum indentation
  (`src/main.rs:47-49`).
- A blank (comment) line is made of spaces only. A line holding only a tab is a header. It
  has no words, so the program panics on `unwrap` (`src/main.rs:20`). The model returns
  `Err(MissingName)` instead.

## Model

| member | source | states |
|---|---|---|
| Text.IsWhitespace | src/main.rs:17-19 | `char::is_whitespace`, the Unicode White_Space set; among ASCII characters exactly space, tab, line feed, vertical tab, form feed and carriage return |
| Text.Words | src/main.rs:19-21 | every piece `split_whitespace` yields is a non-empty word without whitespace |
| Text.NoWordsIffBlank | src/main.rs:19-21 | `split_whitespace` yields no piece exactly when the text is all whitespace |
| Text.WordsKeepText | src/main.rs:19-21 | the words, concatenated in order, are the text with its whitespace removed |
| Text.WordInText | src/main.rs:19-21 | every word occurs in the text as a maximal run: preceded by whitespace or the start, followed by whitespace or the end. The text before word k holds exactly words 0 to k-1, so the words come in text order and the first word is the first run |
| Text.WordsUnwords | src/main.rs:19-21 | splitting words that were joined by single spaces gives exactly those words back, in order |
| Text.TrimEnd | src/main.rs:17 | the trimmed body is a prefix of the raw body, does not end in whitespace, and only whitespace was removed |
| Text.RustLines | src/main.rs:48 | no line that `str::lines` yields contains a newline |
| Text.JoinRustLines | src/main.rs:48 | for a text without `'\r'` and without a final newline, the lines joined by `'\n'` are the text: one line per line of the body |
| Text.LeadingSpaces | src/main.rs:47 | the count `n` of leading spaces: the first `n` characters are spaces and the next one, if any, is not |
| Text.LeadingSpacesOfFirstLine | src/main.rs:47 | the body's leading-space count is that of its first line |
| Scripts.ScriptOf | src/main.rs:15-28 | it fails, with `MissingName`, exactly when the signature has no word. Otherwise the name followed by the parameters are the signature's words, in order, and the body is the raw body minus a whitespace tail and does not end in whitespace |
| Scriptfile.HeaderPositions | src/main.rs:56 | one line number per header line, each a line of the file |
| Scriptfile.HeaderPositionsHold | src/main.rs:56 | position k is a line holding header k |
| Scriptfile.HeaderPositionsIncrease | src/main.rs:63-64 | the header positions are in file order |
| Scriptfile.HeaderPositionsComplete | src/main.rs:63-64 | every header line of the file is among the header positions |
| Scriptfile.BodyAfterIsRun | src/main.rs:56 | group 2 of a header: body lines only, running to the end of the file or to the first line that is not a body line |
| Scriptfile.Extract | src/main.rs:63-66 | it succeeds exactly when every header line has a word. There is one script per header line, in order; script k's name and parameters are header k's words; script k's body is the `trim_end` of the body lines after header k, each with its `'\n'`, so no body ends in whitespace |
| Scriptfile.Parse | src/main.rs:54-67 | `Malformed` exactly when the text does not match the grammar. Any non-empty text not ending in `'\n'` is `Malformed`. A text that matches parses successfully exactly when every header line has a word; otherwise the result is `MissingName`. On success there is one script per header line, in order, each named by its header's first word with the remaining words as parameters; its body is the `trim_end` of the body lines after that header |
| Scriptfile.LineClasses | src/main.rs:55-56 | the three line classes of the grammar: a comment is `#` and the rest of the line, or spaces only; a header is a non-empty line starting with neither `#` nor a space; a body line starts with a space or is empty. Every line is in a class, a header is exactly a line in neither other class, and a line is both a comment and a body line exactly when it is blank (the empty line included) |
| Scriptfile.AcceptsIffNoOrphan | src/main.rs:55-59 | the line sequence fits `(comment* header body*)* comment*` exactly when every non-blank line starting with a space has a header before it with only body lines in between (or, inside a body, only body lines before it) |
| Scriptfile.MatchesIffNoOrphan | src/main.rs:55-59 | a text matches the file grammar exactly when it is empty or ends in `'\n'` and no non-blank line starting with a space stands outside a body: blank lines are comments between scripts and body lines inside them, and an empty line is never a header |
| Scriptfile.BlankFileHasNoScripts | src/main.rs:55-66 | a terminated file whose lines are all blank parses to no script |
| Scriptfile.OrphanBodyLineRejectsFile | src/main.rs:55-61 | a non-blank line starting with a space, with no header line before it, makes the whole file `Malformed` |
| Scriptfile.ParseRender | src/main.rs:54-67 | parsing the rendered text of well-formed scripts gives back exactly those scripts |
| AsWritten.MatchesFrom | src/main.rs:57-61 | a match of `(script_re)*(comment)*$` from a position before the end of the text implies that the text ends in `'\n'` |
| AsWritten.IsMatch | src/main.rs:57-59 | `scriptfile_re.is_match` accepts only an empty or newline-terminated text |
| AsWritten.HeaderAtShape | src/main.rs:56 | `[^# ].*\n`: one character other than `#` and space, `'\n'` included, then the rest of the line through the next `'\n'`; no match exactly when that character is missing, is `#` or a space, or no `'\n'` follows |
| AsWritten.CommentAtShape | src/main.rs:55 | `#.*\n\| *\n`: a comment match is `#` and the rest of the line, or spaces then `'\n'`; after `#` there is no match exactly when no `'\n'` follows |
| AsWritten.BodyLineAtShape | src/main.rs:56 | ` .*\n\|\n`: a body-line match is a lone `'\n'`, or a space and the rest of the line; no match exactly when the line starts with anything else or no `'\n'` follows the space |
| AsWritten.CommentOnlyFileCaptures | src/main.rs:63-64 | in the file `"#c\n"`, which has no header line, the search still finds one match, starting at the `c` |
| AsWritten.BodyEnd | src/main.rs:56 | the greedy body group stops where no further body line starts |
| AsWritten.ScriptAt | src/main.rs:56 | a match of the script expression starting at a position lies within the text, header before body |
| AsWritten.SearchFrom | src/main.rs:63-64 | the match the unanchored search reports lies after the search start and within the text |
| AsWritten.SearchFromNone | src/main.rs:63-64 | the search finds nothing exactly when no start from the search position on has a match |
| AsWritten.SearchFromLeftmost | src/main.rs:63-64 | the match found is the one at the first start that has a match |
| AsWritten.CapturesFrom | src/main.rs:63-64 | every match `captures_iter` reports lies after the search start and within the text |
| AsWritten.ScriptsOf | src/main.rs:63-66 | one script per match, or `MissingName` |
| AsWritten.Parse | src/main.rs:54-67 | `Malformed` exactly when the anchored file expression does not match |
| AsWritten.MatchesImpliesIsMatch | src/main.rs:55-59 | every text the line grammar accepts is accepted by the program's regular expression |
| AsWritten.NewlineStartsHeader | src/main.rs:56 | the program turns `"\n x\n"` into one script `x`; the line grammar rejects it |
| AsWritten.TrailingCommentBecomesScript | src/main.rs:63-64 | the program turns `"h\n#c\n"` into scripts `h` and `c`; the line grammar gives only `h` |
| AsWritten.BlankLinesHaveNoName | src/main.rs:56 | the program reads `"\n\n"` as one header without words and fails with `MissingName`; the line grammar gives no script |
| Selection.Select | src/main.rs:84-93 | the index of the first script whose name is the requested one and whose parameter count is at most the arity. It fails exactly when no script fits, with an error carrying the name and the arity |
| Selection.SelectMoreArguments | src/main.rs:88-90 | more arguments never lose a match; the script chosen is the same one or an earlier one |
| Selection.EarlierShorterScriptWins | src/main.rs:88-90 | an earlier script with fewer parameters is chosen over a later one whose parameter count equals the arity |
| Launching.ShellArgs | src/main.rs:32-36 | the argument vector is `-c`, the body, the name, then exactly the arguments after the first `len(parameters)` |
| Launching.Bindings | src/main.rs:33-35 | exactly the parameter names are set in the environment |
| Launching.BindingsLast | src/main.rs:33-35 | a parameter holds the argument at its last position in the parameter list (a later `cmd.env` replaces an earlier one) |
| Launching.BindingsDistinct | src/main.rs:33-35 | with distinct parameter names, parameter i is bound to argument i |
| Launching.BindingsThenExtras | src/main.rs:33-36 | with distinct parameter names, the bound values in parameter order followed by the extra shell arguments are the arguments |
| Launching.Run | src/main.rs:30-36 | an unset `SHELL` (or one that is not valid Unicode, which the `shell` input also gives as absent) fails with `ShellUnset`. Otherwise it launches the shell with the argument vector of `ShellArgs` and the environment of `Bindings` |
| Preview.Dedent | src/main.rs:49 | the shown line is the suffix left after removing `min(indent, len)` characters |
| Preview.PreviewOf | src/main.rs:48-50 | one output line per line of the body |
| Preview.Print | src/main.rs:46-51 | the loop writes exactly `PreviewOf(body)`: `"> "` plus each line with `min(indent, len)` characters removed, `indent` being the body's leading-space count |
| Preview.DedentIndented | src/main.rs:47-49 | a line indented at least `indent` deep loses exactly `indent` spaces and nothing else |
| Preview.FirstLineUnindented | src/main.rs:47-49 | the first shown line starts with `"> "`, and the character after that, if any, is not a space |
| Preview.PreviewKeepsText | src/main.rs:46-51 | when every line is indented at least as deep as the first, re-indenting the shown lines and joining them rebuilds the body |
| Preview.ShallowLineLosesText | src/main.rs:49 | a line with text that is indented less than the first line loses some of that text, not only spaces |
| Cli.Invoke | src/main.rs:75-96 | a parse error fails before the arguments are looked at, no arguments give the usage echo, and no fitting script fails with the name and the arity. Otherwise the selected script, whose name is the first argument, is previewed, and then either it is launched with the remaining arguments or it fails with `ShellUnset` |

## Left out

- Spawning the shell, waiting for it, and turning a failed exit status into an error (`src/main.rs:38-43`). This is process I/O; the model stops at the command it would launch.
- The environment the child inherits. `Launch.env` holds only the variables `zf` adds.
- Reading `SHELL` and `env::args`. Both are inputs: `shell` is an `Option`, `None` when `SHELL` is unset or not valid Unicode, and `args` is the argument list after the program name.
- Checking that `scriptfile` exists and reading it (`src/main.rs:70-74`). This is file I/O; the text is an input.
- Printing the file when there are no arguments (`src/main.rs:79-82`). This is modelled as the `Usage(text)` outcome.
- The `regex` crate. Its behaviour on the two expressions is written out in `AsWritten`. Regex compilation cannot fail for these fixed patterns and is not modelled.
- `anyhow` messages. Errors are datatypes carrying the same data, such as the name and the arity.
- `split_at` counts bytes (`src/main.rs:49`). The model counts characters, which agrees when indentation and the first characters of lines are ASCII. A non-ASCII character at the cut would make the program panic; this is not modelled.
- Scripts.ScriptOf: the panic of `words.next().unwrap()` on a header without words is modelled as `Err(MissingName)`.
- Launching.Run: requires at least as many arguments as parameters. The program would panic on the slice `arguments[len..]` otherwise, and selection guarantees it.
- AsWritten.BodyEnd, AsWritten.ScriptAt, AsWritten.CapturesFrom, AsWritten.ScriptsOf, AsWritten.Parse: the model covers acceptance and extraction for the three inputs in "## Findings" and proves that line-grammar acceptance implies regex acceptance. It does not characterise the program's extraction on other files, and does not prove where the two extractions agree.

## Findings

| source | as written | input that shows it | evidently intended | confidence | as-written member | corrected member |
|---|---|---|---|---|---|---|
| src/main.rs:56 | The header class `[^# ]` also matches `'\n'`. An empty line followed by another line can therefore form one header, so an indented line that directly follows an empty line, before the first header, is accepted and names a script | `"\n x\n"` parses to one script `x` | A header is a non-empty line whose first character is not `#` or a space. A space-started line before any header makes the file malformed | high, not executed | AsWritten.NewlineStartsHeader | Scriptfile.OrphanBodyLineRejectsFile |
| src/main.rs:63-64 | `captures_iter` searches without anchoring. A comment line with no header line after it, even in a file with no script, is searched again from its second character, and the rest of that line names a script | `"h\n#c\n"` parses to scripts `h` and `c` | A comment never yields a script. There is one script per header line, so the file gives only `h` | high, not executed | AsWritten.TrailingCommentBecomesScript | Scriptfile.Parse |
| src/main.rs:56 | `[^# ]` matches `'\n'`, and the leftmost-first order gives up the blank comment lines when no header follows them. Two blank lines then form one header `"\n\n"`, which has no words, and `words.next().unwrap()` (src/main.rs:20) panics during parsing, before the arguments are read | `"\n\n"` gives `MissingName` (a panic in the program) | Blank lines are comments: a file of blank lines has no scripts | high, not executed | AsWritten.BlankLinesHaveNoName | Scriptfile.BlankFileHasNoScripts |
