# Line-based template scanners of the docker-compose configurator

This project models, in Dafny, the two template scanners of the tool that
assembles a `docker-compose.yml` from per-module templates, and its
configuration validator.

* **The dynamic-config transpiler** (`src/dynamicConfig.ts`).
  * A template is split into rows. Each row is either a *script* row, whose
    text after indentation starts with the directive tag, or a *literal* row.
  * The tag is `#$` for `.yml`/`.yaml` files and `//$` for every other
    extension.
  * The `DynConfParser` object has a `state` (`none`, `script`, `config`) and
    a `script` array. For each row it pushes JavaScript program lines.
  * Each maximal run of literal rows becomes one ``printConfig(`…`);`` call.
    Script rows are copied through with the tag stripped.
  * A fixed prologue defining `printConfig` goes in front. The lines are
    joined with line feeds.
* **The template AST builder** (`src/composerTool.ts`). This is an earlier,
  unfinished scanner.
  * `CodeBlock` nodes form a tree by parent links and child lists. Each node
    covers the rows from `begin` to `end`.
  * An `AST` cursor walks the rows of a YAML template. A literal row grows the
    current block and every enclosing block. An `#$ if` directive forks a
    child block, and `#$ }` closes the current one.
* **`_checkConfigProps`** (`src/utils.ts`, duplicated in
  `src/composerTool.ts`). Each schema field lists the `typeof` names the
  configuration's field may have. The first field that matches none of them
  stops the run with an error message.
  The object and the schema are Dafny values, so the validator cannot change
  them.

The modules are:

* `Strings`: the JavaScript string built-ins the scanners use.
* `Outcomes`: a pass/fail result.
* `DynamicConfig`: the transpiler.
* `ComposerTool`: the AST builder and the configuration root check.
* `Utils`: the validator.

Mutable objects are Dafny classes whose methods state their new state:

* `DynConfParser`, with `script` as a `seq<string>` that its methods append to.
* `CodeBlock`, whose `end` and `children` change in place.
* `AST`, with a ghost set of all blocks and a tree invariant `Valid`.

The row loops are methods with loop invariants. Each is proved against a
function that describes its result:

* The transpiler's loop is proved against the state-machine function
  `Finish`. `Finish` is in turn proved equal to `Blocks`, an independent
  run-by-run description of the program.
* The AST loop is proved against `LiteralCount`.
* The validator's nested loops are proved against `Validate`.

Some behaviours of the code worth knowing:

* `ParseDynConfig` does not reject a template containing a backtick, the
  character that delimits literal blocks. Backticks are copied unchanged into
  the literal blocks.
* The script-row test looks at the row after `trimStart` only
  (src/dynamicConfig.ts:59). Trailing whitespace therefore stays in pushed
  script rows and in literal rows.
* The tag rule is fixed in the code (src/dynamicConfig.ts:50): `#$` for
  `.yml` and `.yaml`, `//$` for every other extension. `StartTag` states
  exactly that rule.

## Model

| member | source | states |
|---|---|---|
| Strings.LeadingWhitespaceMaximal | src/dynamicConfig.ts:59 | `trimStart` removes exactly the maximal prefix of ECMAScript whitespace and line terminators: every removed character is whitespace and the next one is not |
| Strings.TrailingWhitespaceMaximal | src/composerTool.ts:124 | `trim` also removes exactly the maximal suffix of whitespace |
| Strings.TrimStartSplit | src/dynamicConfig.ts:59 | a row is its whitespace front followed by its `trimStart` form, which does not begin with whitespace |
| Strings.TrimStartAfterWhitespace | src/dynamicConfig.ts:59-62 | trimming whitespace followed by text not starting with whitespace yields that text |
| Strings.JoinAppend | src/dynamicConfig.ts:73 | `join` of a concatenation is the joins of both halves glued with the separator |
| Strings.JoinPrefixFirst | src/dynamicConfig.ts:73 | text put before the first part ends up before the joined text |
| Strings.SplitLines | src/dynamicConfig.ts:53 | `split('\n')` always yields at least one row |
| Strings.SplitLinesNoLf | src/dynamicConfig.ts:53 | no row of a split contains a line feed |
| Strings.JoinSplitLines | src/dynamicConfig.ts:53 | joining the rows with `\n` gives back the text (split and join are inverse) |
| Strings.SplitJoinLines | src/dynamicConfig.ts:53 | splitting the join of line-feed-free pieces gives back the pieces |
| Strings.ReplaceCrlf | src/dynamicConfig.ts:53 | `replace(/\r\n/g, '\n')` never lengthens the text |
| Strings.ReplaceCrlfDeletesOnlyCr | src/dynamicConfig.ts:53 | the replacement deletes only carriage returns, keeps every other character in order, and leaves text without CR unchanged |
| Strings.ReplaceCrlfIsKeepCr | src/dynamicConfig.ts:53 | the replacement equals a character-by-character definition: a carriage return is removed exactly when a line feed follows it, and a lone carriage return is kept |
| DynamicConfig.DynConfParser.constructor | src/dynamicConfig.ts:12-14 | a new parser has an empty `script` and state `none` |
| DynamicConfig.DynConfParser.CloseConfigBlock | src/dynamicConfig.ts:16-18 | appends the closer `` `); `` and changes nothing else |
| DynamicConfig.DynConfParser.PushScriptRow | src/dynamicConfig.ts:20-27 | appends the closer and then the row when the state was `config`, otherwise only the row; the state becomes `script`; earlier entries are untouched |
| DynamicConfig.DynConfParser.PushConfigRow | src/dynamicConfig.ts:29-37 | from `script` or `none` appends `` printConfig(` `` + row, from `config` the raw row; the state becomes `config`; earlier entries are untouched |
| DynamicConfig.EmitShape | src/dynamicConfig.ts:20-37 | a row pushes one or two entries: two exactly when a script row follows a literal row, the first of them being the closer; a script row's last entry is its code; a literal row's entry is its text, prefixed by the opener unless a block is open |
| DynamicConfig.Next | src/dynamicConfig.ts:25-36 | after a push the state is never `none`, and it is `config` exactly after a literal row |
| DynamicConfig.FinishLength | src/dynamicConfig.ts:57-70 | the parser pushes at least one entry per row, and after the last row adds a closer exactly when a literal block is open |
| DynamicConfig.StartTag | src/dynamicConfig.ts:49-50 | the tag is `#$` if and only if the extension is `.yml` or `.yaml`, `//$` otherwise |
| DynamicConfig.Classify | src/dynamicConfig.ts:58-66 | a literal row is pushed exactly as read; a script row's code is shorter than the row by at least the tag |
| DynamicConfig.ClassifyRows | src/dynamicConfig.ts:57-67 | one classified row per source row |
| DynamicConfig.ClassifyRowsAt | src/dynamicConfig.ts:57-58 | the classified list holds each row's classification at that row's index, so row order is kept |
| DynamicConfig.ClassifyRowsStep | src/dynamicConfig.ts:57-58 | the rows from `i` on classify as row `i` followed by the rows after it |
| DynamicConfig.ClassifyScriptForm | src/dynamicConfig.ts:58-63 | a row made of indentation, the tag, whitespace and code is a script row whose pushed text is exactly the code |
| DynamicConfig.ClassifyShape | src/dynamicConfig.ts:58-66 | a row is a script row if and only if its `trimStart` form starts with the tag; every script row has the indentation/tag/whitespace/code form; every other row is pushed unchanged, indentation included |
| DynamicConfig.LeadingLiterals | src/dynamicConfig.ts:29-37 | the length of the maximal run of literal rows at the front, which one literal block holds |
| DynamicConfig.TextsAppend | src/dynamicConfig.ts:29-37 | the texts of two runs of literal rows, one after the other, are the texts of their concatenation |
| DynamicConfig.FinishIsBlocks | src/dynamicConfig.ts:16-37 | from a state with no block open, what the parser pushes (with the final close) equals the block-by-block program: each script row copied, each maximal literal run opened once and closed once, row order kept |
| DynamicConfig.FinishInBlock | src/dynamicConfig.ts:29-37 | with a block open, the parser continues it with the leading literal rows, closes it exactly once, then proceeds block by block |
| DynamicConfig.LiteralRunTail | src/dynamicConfig.ts:29-37 | dropping the first row of a literal run shortens the run by one and keeps its texts |
| DynamicConfig.FinishCons | src/dynamicConfig.ts:57-67 | the parser's output over a row and the rows after it is that row's lines followed by the output over the rest |
| DynamicConfig.PushRow | src/dynamicConfig.ts:58-66 | one loop pass appends exactly what the state machine emits for the classified row and moves to its next state |
| DynamicConfig.ScanRows | src/dynamicConfig.ts:55-71 | the parser run pushes exactly what the state machine emits from state `none` over the classified rows, including the close of a block still open after the last row |
| DynamicConfig.ParseDynConfig | src/dynamicConfig.ts:49-73 | the result is the prologue followed by the block-by-block program of the classified rows, joined with `\n` |
| DynamicConfig.TextsOfLiterals | src/dynamicConfig.ts:65 | taking rows as literal rows keeps their text: reading the texts back gives the rows |
| DynamicConfig.ClassifiedAsLiterals | src/dynamicConfig.ts:57-67 | rows none of which starts with the tag are all pushed as literal rows |
| DynamicConfig.LiteralsOneBlock | src/dynamicConfig.ts:29-37 | only literal rows make exactly one block: opener on the first row, closer after the last |
| DynamicConfig.JoinLiteralBlock | src/dynamicConfig.ts:73 | the joined block is opener + joined rows + `\n` + closer |
| DynamicConfig.NoScriptRowsOneBlock | src/dynamicConfig.ts:29-73 | rows without a script row give `` printConfig(` `` + rows joined by `\n` + `` \n`); `` |
| DynamicConfig.NoScriptTemplate | src/dynamicConfig.ts:53-73 | a template file without script rows becomes the prologue and one literal block holding the whole file text with CR LF turned into LF |
| ComposerTool.CodeBlock.constructor | src/composerTool.ts:55-64 | a new block has `begin == end == begin`, no children, and is appended as the last child of its parent, when it has one, without changing the parent's `end` |
| ComposerTool.CodeBlock.EndPlus | src/composerTool.ts:65-70 | `end` grows by exactly one on the block and on every ancestor up to the root; no child list changes |
| ComposerTool.AST.constructor | src/composerTool.ts:86-93 | a fresh tree: root `[0, 0]` without parent or children, current block is the root, `rowIdx == 0` |
| ComposerTool.AST.AppendRow | src/composerTool.ts:94-96 | keeps the tree valid; a block's `end` grows by one exactly when it is the current block or one of its ancestors, so the root grows by one and no `end` decreases |
| ComposerTool.AST.CloseCurrent | src/composerTool.ts:97-99 | the current block becomes its parent, or the root when it has none (so closing at the root stays at the root); the tree stays valid |
| ComposerTool.AST.ForkIf | src/composerTool.ts:100-102 | a fresh `if` block `[rowIdx, rowIdx]` becomes the last child of the old current block and the current block; every existing `end` is unchanged; the tree stays valid |
| ComposerTool.AST.ForkElse | src/composerTool.ts:103-105 | changes nothing and keeps the tree valid |
| ComposerTool.ActionOf | src/composerTool.ts:124-140 | a row is appended exactly when it is not a `#$` directive; every directive leads to one of the other actions |
| ComposerTool.LiteralCount | src/composerTool.ts:141-143 | the number of literal rows is at most the number of rows |
| ComposerTool.LiteralCountAppend | src/composerTool.ts:123-146 | literal rows of concatenated row lists add up |
| ComposerTool.LiteralCountAll | src/composerTool.ts:126-143 | every row is appended exactly when the count equals the number of rows |
| ComposerTool.NoForRowMeansNone | src/composerTool.ts:136-137 | `NoForRow` holds exactly when no row dispatches to the `for` branch |
| ComposerTool.NoForRowNone | src/composerTool.ts:136-137 | under `NoForRow`, no row dispatches to the `for` branch |
| ComposerTool.SomeForRow | src/composerTool.ts:136-137 | without `NoForRow`, some row dispatches to the `for` branch |
| ComposerTool.ApplyRow | src/composerTool.ts:124-143 | one row's effect on the tree, per action: a literal row grows the `end` of the current block and of its ancestors by one and nothing else; `if` and `elif` make a fresh empty `if` block at `rowIdx` the last child of the current block and the new current block, leaving every `end` alone; `}` moves to the parent or the root; `else`, `for` and other directives change nothing; the tree stays valid, and the call fails exactly on `for` |
| ComposerTool.ParseRow | src/composerTool.ts:124-145 | one turn of the row loop: the tree stays valid, `rowIdx` advances by one unless the row is a `for` directive, which fails, and the root grows by one exactly for a literal row |
| ComposerTool.ParseYmlTemplate | src/composerTool.ts:121-146 | stops at the first `for` directive with the `TypeError` of the missing `forkForLoop`, otherwise `rowIdx` ends at the number of rows; the root block's `end` is the number of literal rows read; the tree is valid |
| ComposerTool.RootCheckAsWrittenRejectsNoPrefix | src/composerTool.ts:37 | a configuration without `prefix` fails the root check as written, with the message naming `prefix` |
| ComposerTool.RootCheckPassIff | src/composerTool.ts:37 | with `prefix` optional, the root check passes exactly when `prefix` is a string or absent |
| ComposerTool.RootCheckAsWrittenPassIff | src/composerTool.ts:37 | the root check as written passes exactly when `prefix` is present and a string |
| ComposerTool.CheckRoot | src/composerTool.ts:35-37 | the root check's outcome is the validator's outcome on the schema as written, `{prefix: ['string']}` |
| ComposerTool.CheckRootCorrected | src/composerTool.ts:35-37 | the root check with `prefix` optional: the validator's outcome on `{prefix: ['string', 'undefined']}` |
| Utils.TypeOfNames | src/utils.ts:58 | `typeof` yields one of the eight type names; "undefined" exactly for `undefined`; "object" exactly for `null` and objects |
| Utils.CheckConfigProps | src/utils.ts:53-67 | the nested loops with `isValid` and `break` produce exactly the outcome of `Validate`: pass, or the error of the first failing field (the copy at src/composerTool.ts:156-170 is the same code) |
| Utils.ValidatePassIff | src/utils.ts:53-67 | the check passes if and only if every schema field's `typeof` is among its listed types |
| Utils.ValidateFailsAtFirst | src/utils.ts:54-66 | when field `k` is the first unsatisfied one, the error names that field and the place, and lists the allowed types joined with `, or ` |
| Utils.EmptyTypeListFails | src/utils.ts:57-64 | a field with an empty type list always fails |
| Utils.AbsentFieldsPassIff | src/utils.ts:58 | fields that are absent have type "undefined": with none present, the check passes exactly when every field lists "undefined" |
| Utils.OnlySchemaFieldsRead | src/utils.ts:54 | properties outside the schema are never inspected: objects agreeing on the schema's fields get the same outcome |

## Left out

- File handling in `parseDynConfig` and `_parseYmlTemplate` is not modelled. That covers `existsSync`, `lstatSync`, `realpathSync`, `readFileSync` and their `err` calls. It is I/O.
  - `ParseDynConfig` and `ParseYmlTemplate` take the rows of the file. `TemplateRows` states how rows come from the text.
  - `ParseDynConfig` takes the file extension as a parameter, because `path.extname` is Node's library.
- `err` prints to the console and ends the process. Both are modelled only as a `Fail` outcome.
- `evalDynConfig`, the `vm2` sandbox, its `path` helpers and `spread` are not modelled. They run arbitrary JavaScript through foreign libraries.
- `generateDockerComposeYmlFromConfig` is modelled only through its root check (`CheckRoot`). Its per-module loop only calls `_parseYmlTemplate`, which is modelled. `JSON.parse` and `parseArgs` (minimist, file system) are library and CLI plumbing.
- `ParseYmlTemplate` models the `for` directive as the `TypeError` a missing method raises. `forkForLoop` does not exist. `ForBlock` is unused, and `IfBlock.elseBegin` is never assigned, so neither is modelled.
- `ParseYmlTemplate`: the `ast.root` expression statement after the loop has no effect and is not modelled.
- `Utils.CheckConfigProps` models `obj` as its own properties. Inherited properties from the prototype chain are not modelled, nor `obj` being a primitive, `null` or `undefined`.
- `Utils.CheckConfigProps` takes the schema's fields in `for ... in` order. It does not derive that order, in which integer-like keys come first, from an object.
- Strings are sequences of Unicode scalar values, not UTF-16 code units. Surrogate pairs and lone surrogates are not distinguished.
- `src/const.ts` is a type declaration only. `src/index.ts` and `src/tests/test.ts` are not part of this model.

## Findings

| source | as written | input that shows it | evidently intended | confidence | as-written member | corrected member |
|---|---|---|---|---|---|---|
| src/composerTool.ts:37 | the root check's schema `{prefix: ['string']}` requires `prefix` to be a string | a configuration without a `prefix` field: `typeof` gives "undefined", so the run stops with `Field "prefix" (in root of configuration file …) should be string` | `prefix` is optional (`prefix?: string` in src/const.ts:5), so an absent `prefix` should pass | low to medium (the configuration type is the only evidence of intent), not executed | ComposerTool.RootCheckAsWrittenRejectsNoPrefix | ComposerTool.RootCheckPassIff |
