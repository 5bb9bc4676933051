/**
 * The earlier template scanner: a tree of code blocks (`CodeBlock`, `IfBlock`)
 * over the rows of a YAML template, built by a cursor (`AST`) while the rows
 * are read. A block covers the rows from `begin` to `end`; appending a literal
 * row to a block moves the `end` of that block and of every enclosing block.
 */
module ComposerTool {
  import opened Strings
  import opened Outcomes
  import Utils

  /** `CodeBlock` or its subclass `IfBlock`. */
  datatype BlockKind = Code | If

  class CodeBlock {
    const parent: CodeBlock?
    const begin: int
    const kind: BlockKind
    /** The enclosing blocks, innermost first: parent, grandparent, ..., root. */
    ghost const ancestors: seq<CodeBlock>
    var children: seq<CodeBlock>
    var end: int

    /** The ancestors start with the parent. */
    ghost predicate ParentFirst() {
      && (parent == null <==> ancestors == [])
      && (parent != null ==> ancestors[0] == parent)
    }

    /** The ancestors are the parent chain, and so is every ancestor's. */
    ghost predicate Linked()
      ensures Linked() ==> this !in ancestors
    {
      && ParentFirst()
      && (forall i :: 0 <= i < |ancestors| ==>
            ancestors[i].ParentFirst() && ancestors[i].ancestors == ancestors[i + 1..])
    }

    lemma ParentLinked()
      requires Linked() && parent != null
      ensures parent.Linked() && parent.ancestors == ancestors[1..]
    {
      var p := parent;
      assert p.ParentFirst() && p.ancestors == ancestors[1..];
      forall i | 0 <= i < |p.ancestors|
        ensures p.ancestors[i].ParentFirst() && p.ancestors[i].ancestors == p.ancestors[i + 1..]
      {
        assert p.ancestors[i] == ancestors[i + 1];
        assert p.ancestors[i + 1..] == ancestors[i + 2..];
      }
    }

    /** `new CodeBlock(parent, begin)`: an empty block `[begin, begin]`,
        appended as the last child of `parent` when there is one. */
    constructor (parent: CodeBlock?, begin: int, kind: BlockKind)
      requires parent != null ==> parent.Linked()
      modifies parent
      ensures this.parent == parent && this.begin == begin && this.kind == kind
      ensures end == begin && children == []
      ensures ancestors == if parent == null then [] else [parent] + parent.ancestors
      ensures Linked()
      ensures parent != null ==> parent.children == old(parent.children) + [this] && parent.end == old(parent.end)
    {
      this.parent := parent;
      this.begin := begin;
      this.kind := kind;
      this.ancestors := if parent == null then [] else [parent] + parent.ancestors;
      this.end := begin;
      this.children := [];
      new;
      if parent != null {
        parent.children := parent.children + [this];
      }
    }

    /** `endPlus`: the block and every enclosing block grow by one row. */
    method EndPlus()
      requires Linked()
      modifies this, ancestors
      decreases |ancestors|
      ensures end == old(end) + 1
      ensures forall b :: b in ancestors ==> b.end == old(b.end) + 1
      ensures children == old(children)
      ensures forall b :: b in ancestors ==> b.children == old(b.children)
    {
      end := end + 1;
      if parent != null {
        ParentLinked();
        parent.EndPlus();
      }
    }
  }

  /** The cursor over the block tree. */
  class AST {
    const root: CodeBlock
    var currentBlock: CodeBlock
    var rowIdx: int
    /** Every block of the tree. */
    ghost var blocks: set<CodeBlock>

    /** The blocks form one tree under `root`, the children lists agree with
        the parent links, and no block ends before it begins. */
    ghost predicate Valid()
      reads this`currentBlock, this`blocks, blocks
    {
      && root in blocks && root.parent == null && root.begin == 0
      && currentBlock in blocks
      && forall b :: b in blocks ==> InTree(b)
    }

    /** Block `b` hangs under `root` inside the tree and is consistent with its
        parent and its children. */
    ghost predicate InTree(b: CodeBlock)
      reads this`blocks, blocks
      requires b in blocks
    {
      && b.Linked()
      && (forall a :: a in b.ancestors ==> a in blocks)
      && (b != root ==> b.ancestors != [] && b.ancestors[|b.ancestors| - 1] == root)
      && b.begin <= b.end
      && (forall c :: c in b.children ==> c in blocks && c.parent == b)
      && (b.parent != null ==> b in b.parent.children)
    }

    /** A fresh tree: the root block `[0, 0]`, which is also current, at row 0. */
    constructor ()
      ensures Valid() && fresh(blocks)
      ensures blocks == {root} && currentBlock == root && rowIdx == 0
      ensures root.parent == null && root.kind == Code && root.end == 0 && root.children == []
    {
      var r := new CodeBlock(null, 0, Code);
      root := r;
      currentBlock := r;
      rowIdx := 0;
      blocks := {r};
    }

    /** `appendRow`: the current block and all blocks around it grow by one row. */
    method AppendRow()
      requires Valid()
      modifies blocks
      ensures Valid()
      ensures root.end == old(root.end) + 1
      ensures forall b :: b in blocks ==>
        b.end == old(b.end) + (if b == currentBlock || b in currentBlock.ancestors then 1 else 0)
      ensures forall b :: b in blocks ==> b.children == old(b.children)
    {
      currentBlock.EndPlus();
    }

    /** `closeCurrent`: back to the enclosing block, or to the root when there is none. */
    method CloseCurrent()
      requires Valid()
      modifies this`currentBlock
      ensures Valid()
      ensures currentBlock == if old(currentBlock).parent != null then old(currentBlock).parent else root
    {
      currentBlock := if currentBlock.parent != null then currentBlock.parent else root;
    }

    /** `forkIf`: a new, empty `if` block starting at the current row becomes
        the last child of the current block and the current block itself. */
    method ForkIf()
      requires Valid()
      modifies this`currentBlock, this`blocks, currentBlock
      ensures Valid()
      ensures fresh(currentBlock) && blocks == old(blocks) + {currentBlock}
      ensures currentBlock.parent == old(currentBlock) && currentBlock.kind == If
      ensures currentBlock.begin == rowIdx && currentBlock.end == rowIdx && currentBlock.children == []
      ensures old(currentBlock).children == old(currentBlock.children) + [currentBlock]
      ensures forall b :: b in old(blocks) ==> b.end == old(b.end)
    {
      ghost var cur, old_blocks := currentBlock, blocks;
      var block := new CodeBlock(currentBlock, rowIdx, If);
      currentBlock := block;
      blocks := blocks + {block};
      forall b | b in blocks
        ensures InTree(b)
      {
        if b == block {
          assert block.ancestors == [cur] + cur.ancestors;
        } else {
          assert old(InTree(b));
          assert b.parent != null ==> b.parent in old_blocks;
        }
      }
    }

    /** `forkElse` has an empty body: it changes nothing. */
    method ForkElse()
      requires Valid()
      ensures Valid()
    {
    }
  }

  /** A directive row: once trimmed, it starts with `#$`. */
  predicate IsDirective(row: string) {
    StartsWith(Trim(row), "#$")
  }

  /** What the row loop does with a row: fork for `if`, fork after an empty
      `forkElse` for `elif`, only `forkElse` for `else`, call the missing
      `forkForLoop` for `for`, close for `}`, nothing for any other directive,
      append for a literal row. */
  datatype Action = IfRow | ElifRow | ElseRow | ForRow | CloseRow | OtherDirective | LiteralRow

  /** The action for a row: literal rows are appended; a directive is dispatched
      on the start of its trimmed text after `#$`, tested in this order. */
  function ActionOf(row: string): (a: Action)
    ensures a.LiteralRow? <==> !IsDirective(row)
  {
    if !IsDirective(row) then LiteralRow
    else
      var command := Trim(Trim(row)[2..]);
      if StartsWith(command, "if") then IfRow
      else if StartsWith(command, "elif") then ElifRow
      else if StartsWith(command, "else") then ElseRow
      else if StartsWith(command, "for") then ForRow
      else if StartsWith(command, "}") then CloseRow
      else OtherDirective
  }

  /** The number of literal (non-directive) rows. */
  function LiteralCount(rows: seq<string>): (n: nat)
    ensures n <= |rows|
  {
    if rows == [] then 0
    else LiteralCount(rows[..|rows| - 1]) + (if IsDirective(rows[|rows| - 1]) then 0 else 1)
  }

  /** Counting literal rows adds up over concatenated row lists. */
  lemma {:induction false} LiteralCountAppend(a: seq<string>, b: seq<string>)
    ensures LiteralCount(a + b) == LiteralCount(a) + LiteralCount(b)
  {
    if b == [] {
      assert a + b == a;
    } else {
      var b' := b[..|b| - 1];
      LiteralCountAppend(a, b');
      assert (a + b)[..|a + b| - 1] == a + b';
      assert (a + b)[|a + b| - 1] == b[|b| - 1];
    }
  }

  /** Every row is literal exactly when the count is the number of rows. */
  lemma {:induction false} LiteralCountAll(rows: seq<string>)
    ensures LiteralCount(rows) == |rows| <==> forall j :: 0 <= j < |rows| ==> !IsDirective(rows[j])
  {
    if rows != [] {
      var init := rows[..|rows| - 1];
      LiteralCountAll(init);
      assert forall j :: 0 <= j < |init| ==> init[j] == rows[j];
    }
  }

  /** No row is a `for` directive. */
  predicate NoForRow(rows: seq<string>) {
    rows == [] || (NoForRow(rows[..|rows| - 1]) && !ActionOf(rows[|rows| - 1]).ForRow?)
  }

  lemma {:induction false} NoForRowMeansNone(rows: seq<string>)
    ensures NoForRow(rows) <==> forall j :: 0 <= j < |rows| ==> !ActionOf(rows[j]).ForRow?
  {
    if NoForRow(rows) {
      NoForRowNone(rows);
    } else {
      SomeForRow(rows);
    }
  }

  lemma {:induction false} NoForRowNone(rows: seq<string>)
    requires NoForRow(rows)
    ensures forall j :: 0 <= j < |rows| ==> !ActionOf(rows[j]).ForRow?
  {
    if rows != [] {
      var init := rows[..|rows| - 1];
      NoForRowNone(init);
      forall j | 0 <= j < |init| ensures !ActionOf(rows[j]).ForRow? {
        assert rows[j] == init[j];
      }
    }
  }

  lemma {:induction false} SomeForRow(rows: seq<string>)
    requires !NoForRow(rows)
    ensures exists j :: 0 <= j < |rows| && ActionOf(rows[j]).ForRow?
  {
    var init, last := rows[..|rows| - 1], rows[|rows| - 1];
    if !ActionOf(last).ForRow? {
      SomeForRow(init);
      var j :| 0 <= j < |init| && ActionOf(init[j]).ForRow?;
      assert rows[j] == init[j];
    }
  }

  /** The message of the `TypeError` raised by calling `forkForLoop`, which `AST` does not have. */
  const ForLoopError: string := "ast.forkForLoop is not a function"

  /** What one row does to the tree: a directive forks, closes or is ignored,
      a literal row is appended. The result says whether the row was a `for`
      directive, whose call fails. */
  method ApplyRow(ast: AST, rowSrc: string) returns (failed: bool)
    requires ast.Valid()
    modifies ast, ast.blocks
    ensures ast.Valid() && fresh(ast.blocks - old(ast.blocks))
    ensures failed <==> ActionOf(rowSrc).ForRow?
    ensures ast.rowIdx == old(ast.rowIdx)
    ensures ast.root.end == old(ast.root.end) + (if IsDirective(rowSrc) then 0 else 1)
    // A literal row: the current block and its ancestors grow by one row.
    ensures ActionOf(rowSrc).LiteralRow? ==>
      && ast.currentBlock == old(ast.currentBlock) && ast.blocks == old(ast.blocks)
      && (forall b :: b in ast.blocks ==>
            b.end == old(b.end) + (if b == ast.currentBlock || b in ast.currentBlock.ancestors then 1 else 0))
      && (forall b :: b in ast.blocks ==> b.children == old(b.children))
    // `if` and `elif`: a fresh, empty `if` block at `rowIdx` becomes the last
    // child of the current block and the current block itself.
    ensures ActionOf(rowSrc).IfRow? || ActionOf(rowSrc).ElifRow? ==>
      && fresh(ast.currentBlock) && ast.blocks == old(ast.blocks) + {ast.currentBlock}
      && ast.currentBlock.parent == old(ast.currentBlock) && ast.currentBlock.kind == If
      && ast.currentBlock.begin == ast.rowIdx && ast.currentBlock.end == ast.rowIdx
      && ast.currentBlock.children == []
      && old(ast.currentBlock).children == old(ast.currentBlock.children) + [ast.currentBlock]
      && (forall b :: b in old(ast.blocks) ==> b.end == old(b.end))
      && (forall b :: b in old(ast.blocks) && b != old(ast.currentBlock) ==> b.children == old(b.children))
    // `}`: back to the enclosing block, or to the root.
    ensures ActionOf(rowSrc).CloseRow? ==>
      && ast.currentBlock == (if old(ast.currentBlock).parent != null then old(ast.currentBlock).parent else ast.root)
      && ast.blocks == old(ast.blocks)
      && (forall b :: b in ast.blocks ==> b.end == old(b.end) && b.children == old(b.children))
    // `else`, `for` and any other directive leave the tree and the cursor as they are.
    ensures ActionOf(rowSrc).ElseRow? || ActionOf(rowSrc).ForRow? || ActionOf(rowSrc).OtherDirective? ==>
      && ast.currentBlock == old(ast.currentBlock) && ast.blocks == old(ast.blocks)
      && (forall b :: b in ast.blocks ==> b.end == old(b.end) && b.children == old(b.children))
  {
    failed := false;
    var row := Trim(rowSrc);
    if StartsWith(row, "#$") {
      row := Trim(row[2..]);
      if StartsWith(row, "if") {
        ast.ForkIf();
      } else if StartsWith(row, "elif") {
        ast.ForkElse();
        ast.ForkIf();
      } else if StartsWith(row, "else") {
        ast.ForkElse();
      } else if StartsWith(row, "for") {
        failed := true;
      } else if StartsWith(row, "}") {
        ast.CloseCurrent();
      }
    } else {
      ast.AppendRow();
    }
  }

  /** One turn of the row loop: the row acts on the tree, then `rowIdx` moves
      on, unless the row was a `for` directive, whose call throws first. */
  method ParseRow(ast: AST, rowSrc: string) returns (failed: bool)
    requires ast.Valid()
    modifies ast, ast.blocks
    ensures ast.Valid() && fresh(ast.blocks - old(ast.blocks))
    ensures failed <==> ActionOf(rowSrc).ForRow?
    ensures ast.rowIdx == old(ast.rowIdx) + (if failed then 0 else 1)
    ensures ast.root.end == old(ast.root.end) + (if IsDirective(rowSrc) then 0 else 1)
  {
    failed := ApplyRow(ast, rowSrc);
    if !failed {
      ast.rowIdx := ast.rowIdx + 1;
    }
  }

  /** The row loop of `_parseYmlTemplate` over the rows of a template. It stops
      at the first `for` directive, whose call fails; otherwise every row
      advances `rowIdx` by one, and each literal row, and only a literal row,
      grows the root block by one. */
  method ParseYmlTemplate(rows: seq<string>) returns (ast: AST, outcome: Outcome)
    ensures fresh(ast) && ast.Valid()
    ensures 0 <= ast.rowIdx <= |rows|
    ensures NoForRow(rows[..ast.rowIdx])
    ensures outcome.Pass? <==> ast.rowIdx == |rows|
    ensures outcome.Fail? ==> ActionOf(rows[ast.rowIdx]).ForRow? && outcome == Fail(ForLoopError)
    ensures ast.root.begin == 0 && ast.root.end == LiteralCount(rows[..ast.rowIdx])
  {
    ast := new AST();
    for i := 0 to |rows|
      invariant fresh(ast) && fresh(ast.blocks) && ast.Valid()
      invariant ast.rowIdx == i
      invariant NoForRow(rows[..i])
      invariant ast.root.end == LiteralCount(rows[..i])
    {
      var failed := ParseRow(ast, rows[i]);
      if failed {
        return ast, Fail(ForLoopError);
      }
      assert rows[..i + 1][..i] == rows[..i];
    }
    assert rows[..|rows|] == rows;
    outcome := Pass;
  }

  /** The place named in the root check's error message. */
  function RootWhere(configFilePath: string): string {
    "root of configuration file " + configFilePath
  }

  /** The schema of the root check as written: `prefix` must be a string. */
  const RootSchemaAsWritten: Utils.Schema := [Utils.Field("prefix", ["string"])]

  /** A configuration without `prefix`, which the configuration type allows,
      fails the root check as written. */
  lemma RootCheckAsWrittenRejectsNoPrefix(configFilePath: string)
    ensures Utils.Validate(map[], RootSchemaAsWritten, RootWhere(configFilePath))
      == Fail(Utils.ErrorMessage("prefix", RootWhere(configFilePath), ["string"]))
  {
    Utils.ValidateFailsAtFirst(map[], RootSchemaAsWritten, RootWhere(configFilePath), 0);
  }

  /** The schema of the root check with `prefix` optional. */
  const RootSchema: Utils.Schema := [Utils.Field("prefix", ["string", "undefined"])]

  /** The root check passes exactly when `prefix` is a string or absent, and
      reads nothing else of the configuration. */
  lemma RootCheckPassIff(config: map<string, Utils.JsValue>, configFilePath: string)
    ensures Utils.Validate(config, RootSchema, RootWhere(configFilePath)) == Pass <==>
      Utils.Get(config, "prefix").Str? || Utils.Get(config, "prefix").Undefined?
  {
    Utils.ValidatePassIff(config, RootSchema, RootWhere(configFilePath));
  }

  /** The root check passes exactly when `prefix` is present and a string. */
  lemma RootCheckAsWrittenPassIff(config: map<string, Utils.JsValue>, configFilePath: string)
    ensures Utils.Validate(config, RootSchemaAsWritten, RootWhere(configFilePath)) == Pass <==>
      Utils.Get(config, "prefix").Str?
  {
    Utils.ValidatePassIff(config, RootSchemaAsWritten, RootWhere(configFilePath));
  }

  /** The root check of `generateDockerComposeYmlFromConfig` on the parsed
      configuration, with the schema as written. */
  method CheckRoot(config: map<string, Utils.JsValue>, configFilePath: string) returns (outcome: Outcome)
    ensures outcome == Utils.Validate(config, RootSchemaAsWritten, RootWhere(configFilePath))
  {
    outcome := Utils.CheckConfigProps(config, RootSchemaAsWritten, RootWhere(configFilePath));
  }

  /** The root check with `prefix` optional. */
  method CheckRootCorrected(config: map<string, Utils.JsValue>, configFilePath: string) returns (outcome: Outcome)
    ensures outcome == Utils.Validate(config, RootSchema, RootWhere(configFilePath))
  {
    outcome := Utils.CheckConfigProps(config, RootSchema, RootWhere(configFilePath));
  }
}
