/**
 * The dynamic-config transpiler: a template is split into rows, each row is
 * either a directive ("script") row, marked by a tag, or a literal
 * ("config") row, and the rows are turned into the lines of a JavaScript
 * program. Runs of literal rows become one `printConfig(`...`);` call each;
 * script rows are copied through.
 */
module DynamicConfig {
  import opened Strings

  /** The fixed prologue put in front of every generated program. */
  const ScriptBegin: string :=
    "// config assembly\nfunction printConfig(configBlock) {\n    result.config = result.config + configBlock;\n}\n"

  /** Text that opens a literal block: the start of a template-literal argument. */
  const Opener: string := "printConfig(`"

  /** The entry that closes a literal block. */
  const Closer: string := "`);"

  /** Which kind of row the parser saw last (`none` before the first row). */
  datatype State = None | Script | Config

  /** A template row once it has been classified. */
  datatype Row = ScriptRow(code: string) | ConfigRow(text: string)

  /** The parser object: the program lines pushed so far and the current state. */
  class DynConfParser {
    var script: seq<string>
    var state: State

    constructor ()
      ensures script == [] && state == None
    {
      script := [];
      state := None;
    }

    /** Ends the open literal block. */
    method CloseConfigBlock()
      modifies this`script
      ensures script == old(script) + [Closer]
    {
      script := script + [Closer];
    }

    /** A script row closes an open literal block first, then is copied through. */
    method PushScriptRow(row: string)
      modifies this
      ensures script == old(script) + (if old(state) == Config then [Closer, row] else [row])
      ensures state == Script
      ensures script == old(script) + Emit(old(state), ScriptRow(row))
    {
      if state == Config {
        CloseConfigBlock();
      }
      state := Script;
      script := script + [row];
    }

    /** A literal row opens a block unless one is open, and is kept as it is. */
    method PushConfigRow(row: string)
      modifies this
      ensures script == old(script) + [if old(state) == Config then row else Opener + row]
      ensures state == Config
      ensures script == old(script) + Emit(old(state), ConfigRow(row))
    {
      if state == Script || state == None {
        script := script + [Opener + row];
      } else {
        script := script + [row];
      }
      state := Config;
    }
  }

  /** What the parser pushes for row `r` when in state `s`. */
  function Emit(s: State, r: Row): seq<string> {
    match r
    case ScriptRow(code) => (if s == Config then [Closer] else []) + [code]
    case ConfigRow(text) => [if s == Config then text else Opener + text]
  }

  /** The state after pushing `r`: never back to the initial state, and a
      literal block is open exactly after a literal row. */
  function Next(r: Row): (s: State)
    ensures s != None
    ensures s == Config <==> r.ConfigRow?
  {
    if r.ScriptRow? then Script else Config
  }

  /** Everything pushed for `rows` from state `s`, including the closer that
      ends a literal block still open after the last row. */
  function Finish(s: State, rows: seq<Row>): seq<string>
    decreases |rows|
  {
    if rows == [] then (if s == Config then [Closer] else [])
    else Emit(s, rows[0]) + Finish(Next(rows[0]), rows[1..])
  }

  /** Each row pushes one or two entries: the row itself, preceded by a closer
      exactly when a script row ends a literal block. */
  lemma EmitShape(s: State, r: Row)
    ensures 1 <= |Emit(s, r)| <= 2
    ensures |Emit(s, r)| == 2 <==> s == Config && r.ScriptRow?
    ensures |Emit(s, r)| == 2 ==> Emit(s, r)[0] == Closer
    ensures r.ScriptRow? ==> Emit(s, r)[|Emit(s, r)| - 1] == r.code
    ensures r.ConfigRow? ==> Emit(s, r)[0] == (if s == Config then r.text else Opener + r.text)
  {
  }

  /** The machine pushes at least one entry per row, and at the end adds a
      closer exactly when a literal block is still open. */
  lemma {:induction false} FinishLength(s: State, rows: seq<Row>)
    ensures |rows| <= |Finish(s, rows)|
    ensures rows == [] ==> (Finish(s, rows) == [Closer] <==> s == Config)
    decreases |rows|
  {
    if rows != [] {
      EmitShape(s, rows[0]);
      FinishLength(Next(rows[0]), rows[1..]);
    }
  }

  /** Concatenation regroups freely. A step of the proofs below, with no
      counterpart in the program. */
  lemma AppendAssoc(a: seq<string>, b: seq<string>, c: seq<string>)
    ensures (a + b) + c == a + (b + c)
  {
  }

  /** The directive tag: `#$` for YAML files, `//$` for every other extension. */
  function StartTag(ext: string): (tag: string)
    ensures tag == "#$" <==> ext == ".yml" || ext == ".yaml"
    ensures tag == "//$" <==> !(ext == ".yml" || ext == ".yaml")
    ensures tag != [] && !IsWhitespace(tag[0])
  {
    if ext == ".yml" || ext == ".yaml" then "#$" else "//$"
  }

  /** A row is a script row when, after its indentation, it starts with the tag;
      the tag and the whitespace after it are then stripped. Any other row is
      kept whole, indentation included. */
  function Classify(rowSrc: string, tag: string): (r: Row)
    ensures r.ConfigRow? ==> r.text == rowSrc
    ensures r.ScriptRow? ==> |tag| + |r.code| <= |rowSrc|
  {
    var row := TrimStart(rowSrc);
    if StartsWith(row, tag) then ScriptRow(TrimStart(row[|tag|..])) else ConfigRow(rowSrc)
  }

  /** Every row classified, in order. */
  function ClassifyRows(rows: seq<string>, tag: string): (r: seq<Row>)
    ensures |r| == |rows|
  {
    if rows == [] then [] else [Classify(rows[0], tag)] + ClassifyRows(rows[1..], tag)
  }

  /** The classified list has each row's classification at that row's index. */
  lemma {:induction false} ClassifyRowsAt(rows: seq<string>, tag: string, i: nat)
    requires i < |rows|
    ensures ClassifyRows(rows, tag)[i] == Classify(rows[i], tag)
  {
    if i > 0 {
      ClassifyRowsAt(rows[1..], tag, i - 1);
    }
  }

  /** The rows of a template file: CR LF turned into LF, then split at LF. */
  function TemplateRows(text: string): seq<string> {
    SplitLines(ReplaceCrlf(text))
  }

  /** `rowSrc` is indentation, the tag, whitespace and then `code`, where `code`
      does not begin with whitespace. */
  ghost predicate ScriptForm(rowSrc: string, tag: string, lead: string, gap: string, code: string) {
    && AllWhitespace(lead) && AllWhitespace(gap)
    && (code == [] || !IsWhitespace(code[0]))
    && rowSrc == lead + tag + gap + code
  }

  /** A row of the form indentation + tag + whitespace + code is a script row
      whose pushed text is exactly the code. */
  lemma ClassifyScriptForm(rowSrc: string, tag: string, lead: string, gap: string, code: string)
    requires tag != [] && !IsWhitespace(tag[0])
    requires ScriptForm(rowSrc, tag, lead, gap, code)
    ensures Classify(rowSrc, tag) == ScriptRow(code)
  {
    var row := tag + gap + code;
    assert rowSrc == lead + row;
    assert row[0] == tag[0];
    TrimStartAfterWhitespace(lead, row);
    assert row[..|tag|] == tag;
    assert row[|tag|..] == gap + code;
    TrimStartAfterWhitespace(gap, code);
  }

  /** Conversely, every script row has that form, and every other row is pushed
      unchanged: its trimmed form does not start with the tag. */
  lemma ClassifyShape(rowSrc: string, tag: string)
    ensures Classify(rowSrc, tag).ScriptRow? <==> StartsWith(TrimStart(rowSrc), tag)
    ensures Classify(rowSrc, tag).ScriptRow? ==>
      exists lead, gap :: ScriptForm(rowSrc, tag, lead, gap, Classify(rowSrc, tag).code)
    ensures Classify(rowSrc, tag).ConfigRow? ==> Classify(rowSrc, tag).text == rowSrc
  {
    var row := TrimStart(rowSrc);
    if StartsWith(row, tag) {
      var rest := row[|tag|..];
      var code := TrimStart(rest);
      TrimStartSplit(rowSrc);
      TrimStartSplit(rest);
      var lead, gap := rowSrc[..LeadingWhitespace(rowSrc)], rest[..LeadingWhitespace(rest)];
      assert row == tag + rest;
      assert rowSrc == lead + tag + gap + code;
      assert ScriptForm(rowSrc, tag, lead, gap, code);
    }
  }

  /** ---- An independent description of the generated program by blocks ---- */

  /** The number of literal rows at the front of `rows`. */
  function LeadingLiterals(rows: seq<Row>): (k: nat)
    ensures k <= |rows|
    ensures forall i :: 0 <= i < k ==> rows[i].ConfigRow?
    ensures k == |rows| || rows[k].ScriptRow?
  {
    if rows == [] || rows[0].ScriptRow? then 0 else 1 + LeadingLiterals(rows[1..])
  }

  /** The texts of literal rows. */
  function Texts(rows: seq<Row>): (r: seq<string>)
    requires forall i :: 0 <= i < |rows| ==> rows[i].ConfigRow?
    ensures |r| == |rows|
    ensures forall i :: 0 <= i < |rows| ==> r[i] == rows[i].text
  {
    seq(|rows|, i requires 0 <= i < |rows| => rows[i].text)
  }

  /** The texts of two runs of literal rows, one after the other, are the
      texts of their concatenation. */
  lemma TextsAppend(a: seq<Row>, b: seq<Row>)
    requires forall i :: 0 <= i < |a| ==> a[i].ConfigRow?
    requires forall i :: 0 <= i < |b| ==> b[i].ConfigRow?
    ensures forall i :: 0 <= i < |a + b| ==> (a + b)[i].ConfigRow?
    ensures Texts(a + b) == Texts(a) + Texts(b)
  {
  }

  /** One literal block: opened once in front of its first row, closed once after its last. */
  function LiteralBlock(texts: seq<string>): seq<string>
    requires texts != []
  {
    [Opener + texts[0]] + texts[1..] + [Closer]
  }

  /** The program lines, described run by run: each script row is copied, each
      maximal run of literal rows becomes exactly one literal block. */
  function Blocks(rows: seq<Row>): seq<string>
    decreases |rows|
  {
    if rows == [] then []
    else if rows[0].ScriptRow? then [rows[0].code] + Blocks(rows[1..])
    else
      var k := LeadingLiterals(rows);
      LiteralBlock(Texts(rows[..k])) + Blocks(rows[k..])
  }

  /** From a state with no open block, the state machine produces exactly the
      block-by-block program: literal blocks are balanced and rows keep their order. */
  lemma {:induction false} FinishIsBlocks(s: State, rows: seq<Row>)
    requires s != Config
    ensures Finish(s, rows) == Blocks(rows)
    decreases |rows|, 1
  {
    if rows != [] {
      if rows[0].ScriptRow? {
        FinishIsBlocks(Script, rows[1..]);
      } else {
        var rest := rows[1..];
        var k := LeadingLiterals(rows);
        var texts := Texts(rows[..k]);
        FinishInBlock(rest);
        LiteralRunTail(rows);
        var tail := Texts(rest[..k - 1]);
        assert texts[0] == rows[0].text && texts[1..] == tail;
        calc {
          Finish(s, rows);
          [Opener + rows[0].text] + Finish(Config, rest);
          [Opener + rows[0].text] + (tail + [Closer] + Blocks(rows[k..]));
          { AppendAssoc([Opener + rows[0].text], tail + [Closer], Blocks(rows[k..]));
            AppendAssoc([Opener + rows[0].text], tail, [Closer]); }
          LiteralBlock(texts) + Blocks(rows[k..]);
          Blocks(rows);
        }
      }
    }
  }

  /** With a literal block open, the machine continues it with the leading
      literal rows, closes it once, and then proceeds block by block. */
  lemma {:induction false} FinishInBlock(rows: seq<Row>)
    ensures
      var k := LeadingLiterals(rows);
      Finish(Config, rows) == Texts(rows[..k]) + [Closer] + Blocks(rows[k..])
    decreases |rows|, 0
  {
    var k := LeadingLiterals(rows);
    if rows == [] {
    } else if rows[0].ScriptRow? {
      FinishIsBlocks(Script, rows[1..]);
      assert rows[k..] == rows;
    } else {
      FinishInBlock(rows[1..]);
      LiteralRunTail(rows);
    }
  }

  /** Dropping the first row of a literal run shortens the run by one. */
  lemma LiteralRunTail(rows: seq<Row>)
    requires rows != [] && rows[0].ConfigRow?
    ensures
      var k, rest := LeadingLiterals(rows), rows[1..];
      && k >= 1 && LeadingLiterals(rest) == k - 1
      && rest[k - 1..] == rows[k..]
      && Texts(rows[..k]) == [rows[0].text] + Texts(rest[..k - 1])
  {
    var k, rest := LeadingLiterals(rows), rows[1..];
    assert rest[k - 1..] == rows[k..];
    assert Texts(rows[..k]) == [rows[0].text] + Texts(rest[..k - 1]);
  }

  /** One row of the machine's work. */
  lemma FinishCons(s: State, r: Row, rows: seq<Row>)
    ensures Finish(s, [r] + rows) == Emit(s, r) + Finish(Next(r), rows)
  {
    assert ([r] + rows)[1..] == rows;
  }

  /** Classifying the rows from `i` on is classifying row `i`, then the rest. */
  lemma ClassifyRowsStep(rows: seq<string>, tag: string, i: nat)
    requires i < |rows|
    ensures ClassifyRows(rows[i..], tag) == [Classify(rows[i], tag)] + ClassifyRows(rows[i + 1..], tag)
  {
    assert rows[i..][1..] == rows[i + 1..];
  }

  /** The body of the row loop of `parseDynConfig`: classify one row and push it. */
  method PushRow(parser: DynConfParser, rowSrc: string, startTag: string)
    modifies parser
    ensures parser.script == old(parser.script) + Emit(old(parser.state), Classify(rowSrc, startTag))
    ensures parser.state == Next(Classify(rowSrc, startTag))
  {
    var row := TrimStart(rowSrc);
    if StartsWith(row, startTag) {
      row := TrimStart(row[|startTag|..]);
      parser.PushScriptRow(row);
    } else {
      parser.PushConfigRow(rowSrc);
    }
  }

  /** The parser run of `parseDynConfig`: every row is classified and pushed
      in order, and a literal block still open after the last row is closed.
      The pushed lines are what the state machine emits from state `none`. */
  method ScanRows(rows: seq<string>, startTag: string) returns (script: seq<string>)
    ensures script == Finish(None, ClassifyRows(rows, startTag))
  {
    var parser := new DynConfParser();
    for i := 0 to |rows|
      invariant parser.script + Finish(parser.state, ClassifyRows(rows[i..], startTag))
        == Finish(None, ClassifyRows(rows, startTag))
    {
      ghost var before, state := parser.script, parser.state;
      ghost var r := Classify(rows[i], startTag);
      ghost var rest := Finish(Next(r), ClassifyRows(rows[i + 1..], startTag));
      ClassifyRowsStep(rows, startTag, i);
      FinishCons(state, r, ClassifyRows(rows[i + 1..], startTag));
      PushRow(parser, rows[i], startTag);
      AppendAssoc(before, Emit(state, r), rest);
    }
    assert rows[|rows|..] == [];
    if parser.state == Config {
      parser.CloseConfigBlock();
    }
    assert rows[0..] == rows;
    script := parser.script;
  }

  /** `parseDynConfig` for a file with extension `ext` whose rows are `rows`
      (`TemplateRows` of its text): the prologue followed by the block-by-block
      program of the classified rows, joined with line feeds. */
  method ParseDynConfig(ext: string, rows: seq<string>) returns (program: string)
    ensures program == ScriptBegin + Join(Blocks(ClassifyRows(rows, StartTag(ext))), "\n")
  {
    var startTag := StartTag(ext);
    var script := ScanRows(rows, startTag);
    FinishIsBlocks(None, ClassifyRows(rows, startTag));
    program := ScriptBegin + Join(script, "\n");
  }

  /** Every row taken as a literal row. */
  function Literals(rows: seq<string>): (r: seq<Row>)
    ensures |r| == |rows|
    ensures forall i :: 0 <= i < |rows| ==> r[i] == ConfigRow(rows[i])
  {
    seq(|rows|, i requires 0 <= i < |rows| => ConfigRow(rows[i]))
  }

  /** Taking rows as literal rows and reading their texts back gives the rows. */
  lemma TextsOfLiterals(rows: seq<string>)
    ensures forall i :: 0 <= i < |Literals(rows)| ==> Literals(rows)[i].ConfigRow?
    ensures Texts(Literals(rows)) == rows
  {
  }

  lemma ClassifiedAsLiterals(rows: seq<string>, tag: string)
    requires forall i :: 0 <= i < |rows| ==> !StartsWith(TrimStart(rows[i]), tag)
    ensures ClassifyRows(rows, tag) == Literals(rows)
  {
    forall i | 0 <= i < |rows| ensures ClassifyRows(rows, tag)[i] == Literals(rows)[i] {
      ClassifyRowsAt(rows, tag, i);
    }
  }

  /** Literal rows alone form a single block. */
  lemma LiteralsOneBlock(rows: seq<string>)
    requires rows != []
    ensures Blocks(Literals(rows)) == [Opener + rows[0]] + rows[1..] + [Closer]
  {
    var cls := Literals(rows);
    var k := LeadingLiterals(cls);
    assert k == |cls|;
    assert cls[..k] == cls && cls[k..] == [];
    assert Texts(cls) == rows;
  }

  lemma JoinLiteralBlock(rows: seq<string>)
    requires rows != []
    ensures Join([Opener + rows[0]] + rows[1..] + [Closer], "\n") == Opener + Join(rows, "\n") + "\n" + Closer
  {
    var head := [Opener + rows[0]] + rows[1..];
    JoinAppend(head, [Closer], "\n");
    JoinPrefixFirst(Opener, rows, "\n");
  }

  /** Rows none of which is a script row become a single literal block
      holding all the rows, in order. */
  lemma NoScriptRowsOneBlock(tag: string, rows: seq<string>)
    requires rows != []
    requires forall i :: 0 <= i < |rows| ==> !StartsWith(TrimStart(rows[i]), tag)
    ensures Join(Blocks(ClassifyRows(rows, tag)), "\n") == Opener + Join(rows, "\n") + "\n" + Closer
  {
    ClassifiedAsLiterals(rows, tag);
    LiteralsOneBlock(rows);
    JoinLiteralBlock(rows);
  }

  /** A template file without script rows becomes the prologue and one literal
      block holding the whole file text (line endings normalised to LF). */
  lemma NoScriptTemplate(ext: string, text: string)
    requires forall i :: 0 <= i < |TemplateRows(text)| ==>
      !StartsWith(TrimStart(TemplateRows(text)[i]), StartTag(ext))
    ensures ScriptBegin + Join(Blocks(ClassifyRows(TemplateRows(text), StartTag(ext))), "\n")
      == ScriptBegin + Opener + ReplaceCrlf(text) + "\n" + Closer
  {
    NoScriptRowsOneBlock(StartTag(ext), TemplateRows(text));
    JoinSplitLines(ReplaceCrlf(text));
  }
}
