# rocal core, modelled in Dafny

Rocal is a Rust framework for local-first web applications. This project models its core and proves properties of the model:

- **The `view!` template compiler** (`rocal_ui`).
  - Four parsers turn the macro's token trees into template trees. `html5.rs` is an iterative parser over an explicit stack of frames. `html.rs` and `html2.rs` are recursive parsers that find an element's body by scanning ahead for its closing tag. `lexer.rs` is the oldest, single-child parser.
  - Two code generators turn trees into the statements of the generated Rust: `html/to_tokens.rs` and `models/html_node.rs`.
  - `html/to_tokens.rs` also emits an HTML escaper.
  - The linked `Stack` and `Queue` in `data_types` are used by the parsers.
- **Routing and macro input** (`rocal_core`):
  - the path trie `Router`, with `<param>` capture and query merging;
  - `RequestMethod`;
  - the `route!`, `config!` and action-signature readers;
  - `to_snake_case`.
- **Small utilities**:
  - the development server's MIME lookup;
  - the command-line tool's bullet list, table and colour formatters;
  - its table of cancellation reasons;
  - the read-once `FlashMemory` of the `self_checkout` example;
  - `Note::get_title` of the `simple_note` example.

Every `.dfy` file holds one module, named after the source file or component it models. The modules are:

- `Wrappers`, `Tokens`, `Elements`: options and results, token trees, element names
- `Template`: the tree the template parsers build
- `Scan`: the parsers' shared scanning helpers
- `DataStack`, `DataQueue`: the linked stack and queue, as classes
- `Html5`, `Html5Facts`, `Html5Print`: the iterative parser, its properties, and a printer with the parse/print round trip
- `BodyScan`, `Recursive`, `RecursivePrint`, `Html`, `Html2`: the recursive parsers, with one configuration choosing between `html.rs` and `html2.rs`
- `ToTokens`: the code generator, the generated program's meaning and the escaper
- `Lexer`, `HtmlNode`: the oldest parser, its node tree and generator
- `Router`, `RequestMethod`, `ParsedRoute`, `Configuration`, `Entries`, `ParsedAction`, `SnakeCase`: the `rocal_core` pieces
- `ContentType`, `CliList`, `CliTable`, `Color`, `CancelSubscription`, `FlashMemory`, `Note`: the utilities

Code that updates state in place is modelled imperatively:

- the linked structures, `Router`, `List`, `Table` and `FlashMemory` are classes;
- the source's loops are methods with loop invariants;
- each such method is proved equal to a specification function, and the properties are lemmas about that function.

Pure code is modelled as functions and lemmas.

## Model

| member | source | states |
|---|---|---|
| DataStack.Stack.constructor | rocal_ui/src/data_types/stack.rs:16-18 | a new stack is valid and empty |
| DataStack.Stack.Push | rocal_ui/src/data_types/stack.rs:20-28 | the value becomes the top (last of `Contents`), everything below is unchanged, and `len` grows by one |
| DataStack.Stack.Pop | rocal_ui/src/data_types/stack.rs:30-38 | on an empty stack `None`, with the stack and `len == 0` unchanged; otherwise the top value, removed, with `len` one smaller |
| DataStack.Stack.Peek | rocal_ui/src/data_types/stack.rs:40-46 | the top value, or `None` for an empty stack; the stack is not modified |
| DataStack.StackScenario | rocal_ui/tests/test_stack.rs:5-22 | three pushes peek as 3 and pop as 3, 2, 1; two more pops give `None`; a push of 4 after that pops as 4 |
| DataQueue.Queue.constructor | rocal_ui/src/data_types/queue.rs:17-23 | a new queue is valid, empty, not stale, with `len == 0` and nothing to peek |
| DataQueue.Queue.Enqueue | rocal_ui/src/data_types/queue.rs:25-37 | the value joins the back and becomes what `peek` returns, and `len` grows by one; on a stale queue (`start` empty, `end` set) the value is linked to the removed cell and does not join |
| DataQueue.Queue.Dequeue | rocal_ui/src/data_types/queue.rs:39-59 | with `len > 0` the front value, removed, and `len` one smaller; removing the last value leaves the queue stale; with `len == 0`, `None` and both ends cleared |
| DataQueue.Queue.DequeueFixed | rocal_ui/src/data_types/queue.rs:39-59 | the same results as `dequeue`, and a queue that is not stale never becomes stale |
| DataQueue.Queue.Peek | rocal_ui/src/data_types/queue.rs:61-67 | the most recently enqueued value while `end` is set, without changing the queue |
| DataQueue.QueueScenario | rocal_ui/tests/test_queue.rs:5-25 | the first test's sequence of results: 1, 2, 3, 4, `None`, 5, `None` |
| DataQueue.ThreeInFourOut | rocal_ui/tests/test_queue.rs:28-44 | three enqueues and four dequeues give three values and then `None` |
| DataQueue.RefillAfterDrain | rocal_ui/src/data_types/queue.rs:28-53 | enqueue 1, dequeue it, then `peek` still gives 1; enqueue 2, the next dequeue gives `None`, and `len` stays 1 |
| DataQueue.RefillAfterDrainFixed | rocal_ui/src/data_types/queue.rs:39-59 | with the corrected dequeue the same sequence gives back 2 |
| Template.AppendChild | rocal_ui/src/html5.rs:75 | `children.push`: the parent keeps its value and its earlier children, and the child is added last |
| Tokens.IdentError | rocal_ui/src/html5.rs:220 | the message of `let var: Ident = input.parse()?` where no plain identifier is found: it differs from the bare "expected identifier" exactly when a keyword stands there, which it then names |
| Scan.FirstBrace | rocal_ui/src/html5.rs:326-330 | the index of the first brace group; no brace group comes before it, and `None` exactly when the stream holds none |
| Scan.UntilBrace | rocal_ui/src/html5.rs:320-348 | an error, with the caller's message, exactly when no trees remain; before a brace group, the trees up to it and their count, none of them a brace group; with no brace group, every tree and a cursor that does not move |
| Scan.ExtractUntilBrace | rocal_ui/src/html5.rs:320-348 | the cursor loop returns what `UntilBrace` specifies |
| Scan.ExtractVariable | rocal_ui/src/html5.rs:270-288 | the text of every tree, run together |
| Scan.ParseAttribute | rocal_ui/src/html5.rs:377-404 | a success consumes three trees: a key (an identifier, or `type` where allowed), `=`, and a string literal or, where allowed, a non-empty `{{ expr }}`; without a key, "Some attributes should be here." |
| Scan.ParseAttributes | rocal_ui/src/html5.rs:52-57 | attributes until `>` (or `/`), three trees each; a token that is neither a key nor an end, or the end of input, is a loop that never ends (`Diverges`) |
| Scan.ScanAttributes | rocal_ui/src/html5.rs:52-57 | the attribute `while` loop returns what `ParseAttributes` specifies |
| Scan.TextOnlyAttributes | rocal_ui/src/html2.rs:386-404 | without expression values, every attribute read is a string literal |
| Scan.ParseAttrPrinted | rocal_ui/src/html5.rs:377-404 | a well-formed attribute written as `key = value` reads back as itself, consuming three trees |
| Scan.ParseAttrsPrinted | rocal_ui/src/html5.rs:52-57 | well-formed attributes written out in order, then an end, read back as the same list in the same order |
| Html5.AttachTop | rocal_ui/src/html5.rs:74-76 | pop the top frame, append the child, push it back: only the top frame changes; fails only on an empty stack |
| Html5.Advance | rocal_ui/src/html5.rs:46-249 | one loop iteration consumes at least one tree |
| Html5.OpenTag | rocal_ui/src/html5.rs:47-82 | an opening tag consumes at least one tree |
| Html5.CloseTag | rocal_ui/src/html5.rs:83-114 | a closing tag consumes exactly `<`, `/`, the name and `>` |
| Html5.Braced | rocal_ui/src/html5.rs:115-148 | `{ "s" }` or `{{ tokens }}` consumes one tree |
| Html5.Block | rocal_ui/src/html5.rs:149-246 | a control-flow construct consumes its header and its brace body |
| Html5.ParseTemplate | rocal_ui/src/html5.rs:34-266 | `Html5::parse` with its own `Stack`: the result is the `Parse` of the input |
| Html5.RunLoop | rocal_ui/src/html5.rs:46-265 | the `while !input.is_empty()` loop and the final `len != 1` check give `Run` of the input from the stack's frames |
| Html5.Finish | rocal_ui/src/html5.rs:252-265 | after the loop, the stack's one frame is the result, and any other number of frames is "Error: lack of some closing tags", as `Run` says for an empty input |
| Html5.Turn | rocal_ui/src/html5.rs:46-249 | one iteration on the stack: an error ends the run with that error; otherwise it consumes at least one tree and the run goes on from the new frames |
| Html5.Iterate | rocal_ui/src/html5.rs:46-249 | one iteration on the real stack does what `Advance` specifies: the same error, or the same count and new frames |
| Html5.RunOpenTag | rocal_ui/src/html5.rs:47-82 | the opening-tag branch on the real stack does what `OpenTag` specifies |
| Html5.RunCloseTag | rocal_ui/src/html5.rs:83-114 | the closing-tag branch on the real stack does what `CloseTag` specifies |
| Html5.RunBraced | rocal_ui/src/html5.rs:115-148 | the brace branch on the real stack does what `Braced` specifies |
| Html5.RunBlock | rocal_ui/src/html5.rs:149-246 | the `if` / `else if` / `else` / `for` branches on the real stack do what `Block` specifies |
| Html5.RunStep | rocal_ui/src/html5.rs:46-250 | the run after one iteration: its error, or the run of the rest from the new frames |
| Html5Facts.FramesRoot | rocal_ui/src/html5.rs:36-44 | the stack starts as the one `Fragment` frame |
| Html5Facts.AttachKeepsFrames | rocal_ui/src/html5.rs:74-76 | appending a child to a well-shaped stack keeps it well-shaped |
| Html5Facts.ParseShape | rocal_ui/src/html5.rs:252-265 | a successful parse returns a `Fragment` root in which every void element is a leaf |
| Html5Facts.RunShape | rocal_ui/src/html5.rs:46-265 | from well-shaped frames, a successful run ends in a `Fragment` root with void leaves |
| Html5Facts.AdvanceShape | rocal_ui/src/html5.rs:65-108 | every successful iteration keeps the frames well-shaped: the `Fragment` root at the bottom, only non-void tags pushed above it, at least one frame |
| Html5Facts.BlockShape | rocal_ui/src/html5.rs:149-246 | a control-flow construct keeps the frames well-shaped |
| Html5Facts.ClosePops | rocal_ui/src/html5.rs:83-108 | `</n>` on a top frame named `n` pops it and makes it the last child of the frame beneath |
| Html5Facts.CloseMismatch | rocal_ui/src/html5.rs:98-111 | `</n>` on a top frame with another name fails with "Invalid syntax" |
| Html5Facts.CloseAtRoot | rocal_ui/src/html5.rs:98-111 | `</n>` with only the root frame fails with "Invalid syntax", since `Fragment` is not named `n` |
| Html5Facts.VoidIsLeaf | rocal_ui/src/html5.rs:59-79 | a void element, with or without `/`, becomes a leaf child of the top frame and the stack height does not change |
| Html5Facts.OpenPushes | rocal_ui/src/html5.rs:59-82 | a non-void element, with or without `/`, is pushed as a new frame |
| Html5Facts.UnclosedFails | rocal_ui/src/html5.rs:252-257 | an opening tag that is never closed fails with "Error: lack of some closing tags" |
| Html5Facts.TextChild | rocal_ui/src/html5.rs:115-132 | `{ "s" }` appends `Text(s)` to the top frame |
| Html5Facts.VarChild | rocal_ui/src/html5.rs:133-148 | `{{ tokens }}` appends `Var` of the tokens' text to the top frame |
| Html5Facts.TextWithTrailing | rocal_ui/src/html5.rs:116-120 | a template that is only a literal followed by more tokens in the braces is refused with "unexpected token" |
| Html5Facts.IfBlock | rocal_ui/src/html5.rs:149-171 | `if cond { body }` attaches an `If(cond)` node, holding the body parsed as a fresh fragment as its one child, to the top frame |
| Html5Facts.ForBlock | rocal_ui/src/html5.rs:217-246 | `for x in iter { body }` attaches `For(x, iter)` with the parsed body as its one child |
| Html5Facts.IfWithoutBody | rocal_ui/src/html5.rs:152-155 | a condition with no brace body after it fails at `braced!` |
| Html5Facts.IfAtEnd | rocal_ui/src/html5.rs:337-338 | `if` at the end of the input fails with "Condition shuold be here." |
| Html5Facts.ForKeywordBinding | rocal_ui/src/html5.rs:219-220 | a keyword as the binding of `for`, such as `for type in …`, is refused with "expected identifier, found keyword `type`" |
| Html5Facts.InvalidLeading | rocal_ui/src/html5.rs:247-249 | any other leading token is "Invalid token" |
| Html5Print.ParsePrinted | rocal_ui/src/html5.rs:34-266 | the round trip: well-formed trees, written out as tokens, parse back to a `Fragment` root holding exactly those trees |
| Html5Print.RunPrintedSeq | rocal_ui/src/html5.rs:46-250 | the loop reads printed siblings one after the other, each appended to the top frame in order |
| Html5Print.RunPrinted | rocal_ui/src/html5.rs:46-250 | one printed tree is read back as one child of the top frame |
| Html5Print.RunPrintedTag | rocal_ui/src/html5.rs:47-114 | a printed element, void or not, with its children when it has them, is read back as one child of the top frame |
| Html5Print.RunBlockPrinted | rocal_ui/src/html5.rs:149-246 | a printed `if` / `else if` / `else` / `for` node is read back as one child of the top frame |
| Html5Print.BlockPrinted | rocal_ui/src/html5.rs:154-165 | a printed brace body parses back as the control node's one fragment child |
| Html5Print.AdvanceOpenPrinted | rocal_ui/src/html5.rs:47-82 | a printed opening tag attaches a void element as a leaf and pushes any other element |
| Html5Print.OpenTagStep | rocal_ui/src/html5.rs:47-82 | after attributes and `>`, the tag is attached if void and pushed otherwise |
| Html5Print.OpenTagPrinted | rocal_ui/src/html5.rs:47-82 | a printed opening tag with well-formed attributes reads back with the same attributes, in order |
| Html5Print.RunCloseTokens | rocal_ui/src/html5.rs:83-114 | a printed closing tag pops its frame into the frame beneath |
| Html5Print.RunOpenVoid | rocal_ui/src/html5.rs:73-79 | a printed void element is read as a leaf of the top frame |
| Html5Print.RunOpenFrame | rocal_ui/src/html5.rs:80-82 | a printed non-void opening tag pushes a fresh frame |
| Html5Print.RunPrintedNonVoid | rocal_ui/src/html5.rs:80-108 | a frame pushed, filled with its children and closed becomes one child of the frame beneath |
| Html5Print.AdvanceOpen | rocal_ui/src/html5.rs:47 | `<` followed by an identifier takes the opening-tag branch |
| Html5Print.AdvanceClose | rocal_ui/src/html5.rs:83 | `<`, `/` and an identifier take the closing-tag branch |
| Html5Print.AdvanceBraced | rocal_ui/src/html5.rs:115 | a brace group takes the text/variable branch |
| Html5Print.AdvanceIf | rocal_ui/src/html5.rs:149-152 | `if` takes the `if` branch with the scanned condition |
| Html5Print.AdvanceElseIf | rocal_ui/src/html5.rs:172-176 | `else if` takes the `else if` branch with the scanned condition |
| Html5Print.AdvanceElse | rocal_ui/src/html5.rs:196-197 | `else` not followed by `if` takes the `else` branch |
| Html5Print.AdvanceFor | rocal_ui/src/html5.rs:217-224 | `for x in` takes the `for` branch with the scanned iterable |
| BodyScan.Opened | rocal_ui/src/html.rs:273-277 | after `<`, an identifier is pushed on the tag stack (every one as written; only the element's own name in the corrected scan), and nothing else changes it |
| BodyScan.Look | rocal_ui/src/html.rs:250-362 | one look keeps between one and four trees, and stops exactly at a `</name>` whose name is not the top of the tag stack |
| BodyScan.Find | rocal_ui/src/html.rs:250-369 | the position where the scan stops leaves room for the closing tag |
| BodyScan.FindCloses | rocal_ui/src/html.rs:314-368 | at the position the scan stops the input holds `</name>` |
| BodyScan.NextInput | rocal_ui/src/html.rs:242-382 | a body is a non-empty prefix of the input, followed either by the end of input or by `</name>`, which is consumed; no body means empty input, or `</name>` first (consumed in html.rs, left in place in html2.rs) |
| BodyScan.NextInputFound | rocal_ui/src/html.rs:364-368 | when the scan stops at `k`, the body is the `k` trees before it and the cursor moves past the closing tag; with `k == 0` the result is `None` |
| BodyScan.NextInputEnd | rocal_ui/src/html.rs:371-375 | when the scan reaches the end, the whole input is the body (`None` for empty input) |
| BodyScan.LookStep | rocal_ui/src/html.rs:250-362 | one look on the real tag stack does what `Look` specifies |
| BodyScan.ScanTurn | rocal_ui/src/html.rs:250-362 | one iteration: stopping means the scan's answer is here; otherwise it moves on by at least one tree and the answer is unchanged |
| BodyScan.ScanLoop | rocal_ui/src/html.rs:250-369 | the `while let` loop collects exactly the trees before the stopping point, which is where `Find` says, or every tree when `Find` finds none |
| BodyScan.ScanNextInput | rocal_ui/src/html.rs:242-382 | `get_next_input` with its own `Stack` returns what `NextInput` specifies |
| Recursive.Parse | rocal_ui/src/html.rs:23-33 | a successful parse returns the `Fragment` root |
| Recursive.ParseInto | rocal_ui/src/html.rs:45-190 | a success keeps the node's value and its earlier children, with new children after them |
| Recursive.Item | rocal_ui/src/html.rs:50-185 | one construct consumes at least one tree |
| Recursive.ForOf | rocal_ui/src/html2.rs:145-163 | `for a in b` stores `a` as the binding and `b` as the iterable in html.rs, and the other way round in html2.rs |
| Recursive.Braced | rocal_ui/src/html.rs:99-115 | `{ "s" }` gives `Text(s)`, `{{ e }}` gives `Var` of the tokens' text, and a brace holding more than one tree is an error |
| Recursive.Block | rocal_ui/src/html.rs:116-182 | a control node with its brace body parsed as its children, consuming the header and the body |
| Recursive.Element | rocal_ui/src/html.rs:50-95 | a success is a tag node named by the identifier, and a void element has no children |
| Recursive.TagEnd | rocal_ui/src/html.rs:64-95 | after the attributes, an optional `/` and the `>`, the node is the given tag; void elements are leaves |
| Recursive.Children | rocal_ui/src/html.rs:70-95 | a void element is a leaf with no body scan; otherwise the body that `get_next_input` finds becomes its children |
| Recursive.AppendKeepsBuilt | rocal_ui/src/html.rs:94 | appending a built child to an open node keeps it built |
| Recursive.IntoBuilt | rocal_ui/src/html.rs:45-190 | every node the recursion adds has void leaves, and only text attributes where expressions are not allowed |
| Recursive.ItemBuilt | rocal_ui/src/html.rs:50-185 | every construct read is built |
| Recursive.BlockBuilt | rocal_ui/src/html.rs:116-182 | a control node built from a body is built |
| Recursive.ElementBuilt | rocal_ui/src/html.rs:50-95 | an element read is built |
| Recursive.ChildrenBuilt | rocal_ui/src/html.rs:70-95 | an element with its children read is built |
| Recursive.ParseBuilt | rocal_ui/src/html.rs:23-33 | every tree a successful parse returns has void leaves, and in html2.rs only text attributes |
| Recursive.ElementOpens | rocal_ui/src/html.rs:54-62 | an attribute error ends the element; otherwise the tag ends after the attributes |
| Recursive.TagEndCloses | rocal_ui/src/html.rs:64-68 | a tag end succeeds only at `>`, after an optional `/`, and then hands the rest to the children |
| Recursive.IntoStep | rocal_ui/src/html.rs:187-189 | after one construct, the rest is parsed with that construct appended |
| Recursive.ItemBareTag | rocal_ui/src/html.rs:50-68 | `<name>` without attributes goes straight to the children |
| Recursive.ChildrenBody | rocal_ui/src/html.rs:79-94 | a body that the scan finds, once parsed, becomes the element's children, and the cursor moves past the scan |
| RecursivePrint.PrintNonEmpty | rocal_ui/src/html.rs:45-48 | printed siblings give no tokens exactly when there are none |
| RecursivePrint.FindPlain | rocal_ui/src/html.rs:259-263 | trees without `<` are kept by the scan one by one |
| RecursivePrint.LookOpen | rocal_ui/src/html.rs:273-293 | `<x` is kept; the corrected scan pushes `x` only when it is the element's own name |
| RecursivePrint.FindOpenTag | rocal_ui/src/html.rs:259-293 | an opening tag is kept whole by the scan |
| RecursivePrint.FindCloseTag | rocal_ui/src/html.rs:314-362 | a closing tag matching the top of the tag stack pops it and is kept |
| RecursivePrint.FindOpenTokens | rocal_ui/src/html.rs:259-293 | a printed opening tag is kept whole, pushing its name when it is the element's own |
| RecursivePrint.FindCloseTokens | rocal_ui/src/html.rs:314-362 | a printed closing tag pops what its opening tag pushed |
| RecursivePrint.FindPrinted | rocal_ui/src/html.rs:250-369 | the corrected scan skips over any whole printed tree, leaving the tag stack as it was |
| RecursivePrint.FindPrintedTag | rocal_ui/src/html.rs:250-369 | the corrected scan skips over a whole printed element |
| RecursivePrint.FindPrintedSeq | rocal_ui/src/html.rs:250-369 | the corrected scan skips over printed siblings |
| RecursivePrint.NextInputPrinted | rocal_ui/src/html.rs:242-382 | with the corrected scan, the body found after a printed opening tag is exactly the printed children, and the closing tag is consumed |
| RecursivePrint.ParsePrinted | rocal_ui/src/html.rs:23-33 | the round trip: with the corrected scan, well-formed trees printed as tokens parse back to a `Fragment` root holding exactly those trees |
| RecursivePrint.IntoPrinted | rocal_ui/src/html.rs:45-190 | printed siblings are appended, in order, after the node's earlier children |
| RecursivePrint.IntoCons | rocal_ui/src/html.rs:187-189 | one construct read, then the rest: the construct comes first among the new children |
| RecursivePrint.ItemPrinted | rocal_ui/src/html.rs:50-185 | one printed tree, followed by anything, is read back as that tree, consuming exactly its tokens |
| RecursivePrint.OpenPrinted | rocal_ui/src/html.rs:50-68 | a printed opening tag with well-formed attributes reads back with the same attributes and hands the rest to the children |
| RecursivePrint.OpenParts | rocal_ui/src/html.rs:50-68 | where the name, the attributes and the `>` of a printed opening tag sit |
| RecursivePrint.ItemElement | rocal_ui/src/html.rs:50-54 | `<` and an identifier take the element branch |
| RecursivePrint.PrintTag | rocal_ui/src/html.rs:70-95 | a void element prints only its opening tag; any other, its children and a closing tag too |
| RecursivePrint.TagPrinted | rocal_ui/src/html.rs:50-95 | a printed element is read back as itself |
| RecursivePrint.ChildrenPrinted | rocal_ui/src/html.rs:78-95 | printed children and a closing tag become the element's children again |
| RecursivePrint.BlockPrinted | rocal_ui/src/html.rs:116-182 | a printed brace body parses back as the control node's children |
| RecursivePrint.ControlPrinted | rocal_ui/src/html.rs:116-182 | a printed `if` / `else if` / `else` / `for` node is read back as itself |
| Html.ParseAsWritten | rocal_ui/src/html.rs:13-33 | `html::parse` as written: a success is a `Fragment` root |
| Html.Parse | rocal_ui/src/html.rs:13-33 | `html::parse` with the corrected body scan: a success is a `Fragment` root |
| Html.TextAndVariable | rocal_ui/tests/test_html_parse.rs:119-131 | `{ "Hello" } {{ name }}` gives a `Text` node and then a `Var` node |
| Html.InvalidToken | rocal_ui/tests/test_html_parse.rs:308-311 | a leading token that starts no construct is "The token is invalid", whatever follows |
| Html.AngleWithoutName | rocal_ui/src/html.rs:96-98 | `<` not followed by an identifier is "The syntax is invalid" |
| Html.IfItem | rocal_ui/src/html.rs:116-133 | `if cond {}` is one `If(cond)` node, consuming three trees |
| Html.ElseIfItem | rocal_ui/src/html.rs:134-159 | `else if cond {}` is one `ElseIf(cond)` node, consuming four trees |
| Html.ElseItem | rocal_ui/src/html.rs:134-159 | `else {}` not followed by `if` is one `Else` node, consuming two trees |
| Html.IfChain | rocal_ui/tests/test_html_parse.rs:134-151 | `if … else if … else` gives `If`, `ElseIf`, `Else` as three siblings, in order |
| Html.ForLoop | rocal_ui/tests/test_html_parse.rs:154-164 | `for x in items {}` gives `For` with binding `x` and iterable `items` |
| Html.ForKeyword | rocal_ui/src/html.rs:160-167 | a keyword as the binding or as the iterable of `for` is refused with "expected identifier, found keyword `…`", naming it |
| Html.ForNeedsIdentifier | rocal_ui/src/html.rs:167 | the iterable must be a single identifier |
| Html.FindNestedBody | rocal_ui/src/html.rs:273-277 | as written, the scan pushes `br` over the inner `div` and stops at the first `</div>` |
| Html.NestedBodyEveryTag | rocal_ui/src/html.rs:242-382 | as written, the outer `div`'s body ends at the inner `</div>` |
| Html.BrScan | rocal_ui/src/html.rs:371-375 | a body with no closing tag is the whole remaining input |
| Html.BrItem | rocal_ui/src/html.rs:70-77 | `<br>` is a leaf with no body scan |
| Html.BrInto | rocal_ui/src/html.rs:70-77 | `<br>` is appended as a leaf |
| Html.InnerItem | rocal_ui/src/html.rs:78-95 | as written, the inner `div` takes `<br>` as its body |
| Html.InnerDiv | rocal_ui/src/html.rs:78-95 | as written, the outer body parses to the inner `div` holding the `br` |
| Html.OuterItem | rocal_ui/src/html.rs:78-95 | as written, the outer `div` consumes only up to the inner `</div>` |
| Html.NestedDivsEveryTag | rocal_ui/src/html.rs:273-277 | with every tag recorded, `<div><div><br></div></div>` fails with "The syntax is invalid" |
| Html.NestedDivsAsWritten | rocal_ui/src/html.rs:273-277 | `html::parse` as written fails on `<div><div><br></div></div>` |
| Html.NestedDivsPrinted | rocal_ui/src/html.rs:23-33 | the nested tree prints as the counterexample's input |
| Html.NestedDivsWellFormed | rocal_ui/src/html.rs:23-33 | the nested tree is one the printer writes correctly |
| Html.NestedDivsRoundTrip | rocal_ui/src/html.rs:23-33 | with the corrected scan the counterexample parses to the nested tree |
| Html.NestedDivsFixed | rocal_ui/src/html.rs:23-33 | the corrected `parse` reads `<div><div><br></div></div>` as that nested tree |
| Html.RoundTrip | rocal_ui/src/html.rs:23-33 | the corrected `parse` reads back every well-formed tree list that is printed |
| Html.VoidLeavesAsWritten | rocal_ui/tests/test_html_parse.rs:37-51 | as written too, every void element parsed is a leaf |
| Html2.ParseAsWritten | rocal_ui/src/html2.rs:17-28 | `Parse for Html2` as written: a success is a `Fragment` root |
| Html2.Parse | rocal_ui/src/html2.rs:17-28 | with the corrected body scan: a success is a `Fragment` root |
| Html2.ParsedShape | rocal_ui/src/html2.rs:386-404 | every attribute parsed is a text attribute and every void element a leaf |
| Html2.ExpressionValueRefused | rocal_ui/src/html2.rs:386-404 | an attribute value in double braces is refused: a string literal is expected |
| Html2.TextValue | rocal_ui/src/html2.rs:386-404 | `key = "text"` is stored as the pair (key, text) |
| Html2.ForSwapped | rocal_ui/src/html2.rs:145-163 | in `for a in b`, `a` is stored as the iterable and `b` as the binding |
| Html2.EmptyScan | rocal_ui/src/html2.rs:349-350 | for an empty body the scan returns `None` and, as written, leaves the cursor at the closing tag |
| Html2.EmptyPItem | rocal_ui/src/html2.rs:64-79 | as written, `<p>` with an empty body consumes only `<p>` |
| Html2.EmptyBodyAsWritten | rocal_ui/src/html2.rs:35-38 | as written, `<p></p>` fails with "The syntax is invalid" when parsing resumes at `</p>` |
| Html2.EmptyPPrinted | rocal_ui/src/html2.rs:17-28 | an empty `p` prints as `<p></p>` |
| Html2.EmptyBodyFixed | rocal_ui/src/html2.rs:17-28 | the corrected scan reads `<p></p>` as an empty `p` |
| Html2.NestedDivsAsWritten | rocal_ui/src/html2.rs:259-262 | html2.rs's scan also fails on `<div><div><br></div></div>` |
| Html2.NestedDivsFixed | rocal_ui/src/html2.rs:17-28 | the corrected scan reads the nested `div`s |
| Html2.RoundTrip | rocal_ui/src/html2.rs:17-28 | the corrected parser reads back every well-formed tree list that is printed |
| ToTokens.EscapeChar | rocal_ui/src/html/to_tokens.rs:25-32 | a character other than the five special ones is copied as it is |
| ToTokens.EscapeLoop | rocal_ui/src/html/to_tokens.rs:21-36 | the emitted `html_escape` loop computes `HtmlEscape` of its input |
| ToTokens.UnescapeEscape | rocal_ui/src/html/to_tokens.rs:21-36 | decoding the five entities undoes `html_escape`: no information is lost |
| ToTokens.EscapeInjective | rocal_ui/src/html/to_tokens.rs:21-36 | two strings with the same escaped form are equal |
| ToTokens.EscapeSafe | rocal_ui/src/html/to_tokens.rs:21-36 | the output contains no `<`, `>`, `"` or `'` |
| ToTokens.EscapeIdentity | rocal_ui/src/html/to_tokens.rs:21-36 | a string without special characters is returned unchanged |
| ToTokens.EscapeLength | rocal_ui/src/html/to_tokens.rs:21-36 | escaping never shortens, and keeps the length exactly when no special character occurs |
| ToTokens.UnescapeChar | rocal_ui/src/html/to_tokens.rs:25-32 | each character's replacement decodes back to that character |
| ToTokens.AttrStmts | rocal_ui/src/html/to_tokens.rs:65-84 | one attribute-writing statement per attribute, in source order |
| ToTokens.CollectSeqAppend | rocal_ui/src/html/to_tokens.rs:98-100 | the children's statements are those of each child in order |
| ToTokens.CollectChildren | rocal_ui/src/html/to_tokens.rs:98-100 | the `for child in &self.children` loop appends every child's statements in order to `out` |
| ToTokens.CollectStmts | rocal_ui/src/html/to_tokens.rs:47-170 | `collect_stmts` appends exactly the node's statements to `out`, leaving what was there |
| ToTokens.CollectTag | rocal_ui/src/html/to_tokens.rs:54-109 | a tag appends its opening statements and, unless void, its children and the closing tag |
| ToTokens.CollectOpen | rocal_ui/src/html/to_tokens.rs:58-95 | `<`, the name, the attributes and `>` (or ` />` when void); nothing for `Fragment` |
| ToTokens.CollectAttrs | rocal_ui/src/html/to_tokens.rs:65-84 | the attribute loop appends one statement per attribute, in order |
| ToTokens.Put | rocal_ui/src/html/to_tokens.rs:38-40 | appending to the buffer extends it by exactly the text |
| ToTokens.RunAppend | rocal_ui/src/html/to_tokens.rs:39 | running two statement lists one after the other is running their concatenation |
| ToTokens.RunOne | rocal_ui/src/html/to_tokens.rs:39 | a single statement runs as itself |
| ToTokens.RunAttrs | rocal_ui/src/html/to_tokens.rs:65-84 | the attribute statements write ` key="text"`, ` key="value"` unescaped, or ` key`, in source order |
| ToTokens.Appends | rocal_ui/src/html/to_tokens.rs:62-63 | two appends write their texts one after the other |
| ToTokens.RunOpen | rocal_ui/src/html/to_tokens.rs:61-94 | an element's opening statements write `<name`, its attributes, then `>` or ` />` |
| ToTokens.CollectRendered | rocal_ui/src/html/to_tokens.rs:47-170 | running a node's statements gives what the node means (`Render`), an independent definition of the output |
| ToTokens.BranchRendered | rocal_ui/src/html/to_tokens.rs:126-152 | a branch body runs as its children mean |
| ToTokens.LoopRendered | rocal_ui/src/html/to_tokens.rs:153-163 | a `for` body runs once per item as its children mean |
| ToTokens.CollectSeqRendered | rocal_ui/src/html/to_tokens.rs:98-100 | children's statements run as the children mean, in order |
| ToTokens.ProgramRendered | rocal_ui/src/html/to_tokens.rs:12-43 | the emitted program starts from an empty buffer, runs the statements in order and returns what the tree means |
| ToTokens.SanitizedVarEscaped | rocal_ui/src/html/to_tokens.rs:110-117 | `SanitizedVar` writes the escaped value, which holds no `<`, `>`, `"` or `'` |
| ToTokens.VarRaw | rocal_ui/src/html/to_tokens.rs:118-125 | `Var` writes its value raw |
| ToTokens.DocTypeWritten | rocal_ui/src/html/to_tokens.rs:164-168 | `DocType` writes `<!DOCTYPE html>` and a newline |
| ToTokens.FragmentTransparent | rocal_ui/src/html/to_tokens.rs:58-107 | a `Fragment` writes only its children, with no tag of its own |
| ToTokens.VoidElementWritten | rocal_ui/src/html/to_tokens.rs:86-97 | a void element writes `<name`, its attributes and ` />`, with no children and no closing tag |
| ToTokens.ElementWritten | rocal_ui/src/html/to_tokens.rs:61-107 | a non-void element writes `<name`, its attributes, `>`, its children's output, and `</name>` with a newline |
| ToTokens.ElementRender | rocal_ui/src/html/to_tokens.rs:90-107 | an element's meaning: the opening tag, the children, one closing tag |
| ToTokens.PrefixPut | rocal_ui/src/html/to_tokens.rs:38-40 | appending does not depend on what is already in the buffer |
| ToTokens.RenderPrefix | rocal_ui/src/html/to_tokens.rs:47-170 | what a node writes does not depend on what is already in the buffer |
| ToTokens.BranchPrefix | rocal_ui/src/html/to_tokens.rs:126-152 | nor does what a branch writes |
| ToTokens.LoopPrefix | rocal_ui/src/html/to_tokens.rs:153-163 | nor does what a loop writes |
| ToTokens.RenderSeqPrefix | rocal_ui/src/html/to_tokens.rs:98-100 | nor does what a list of children writes |
| ToTokens.RenderTwo | rocal_ui/src/html/to_tokens.rs:98-100 | two siblings run one after the other, and an error in the first ends the run |
| ToTokens.IfElseChosen | rocal_ui/src/html/to_tokens.rs:126-152 | `if c { a } else { b }` writes `a` when the condition holds and `b` otherwise |
| ToTokens.StrayElseRefused | rocal_ui/src/html/to_tokens.rs:146-151 | an `else` not preceded by `if` is generated code that does not compile |
| ToTokens.LoopOfVar | rocal_ui/src/html/to_tokens.rs:153-163 | a loop whose body writes the loop variable writes each item in order |
| ToTokens.ForWritesItems | rocal_ui/src/html/to_tokens.rs:153-163 | `for x in it { {{ x }} }` writes the items of `it` one after the other |
| Lexer.NextChunk | rocal_ui/src/lexer.rs:202-253 | one step of `get_children`: push one to four tokens, stop at `</name>`, or make no progress when fewer than four tokens start with `<` |
| Lexer.ChildrenOf | rocal_ui/src/lexer.rs:195-257 | the body collected is never longer than what was read, and the only failure is the scan that loops forever |
| Lexer.ChildrenShape | rocal_ui/src/lexer.rs:195-257 | the scan either reads everything or stops right after the body followed by `</name>` |
| Lexer.ShiftStep | rocal_ui/src/lexer.rs:204-249 | pushing the tokens of a skipped chunk does not change the result of the scan |
| Lexer.StopStep | rocal_ui/src/lexer.rs:236-256 | at the end of the stream or at `</name>` the scan returns what it pushed; a short stream starting with `<` never ends |
| Lexer.StartStep | rocal_ui/src/lexer.rs:199-200 | the scan starts with nothing pushed at the start of the stream |
| Lexer.GetChildren | rocal_ui/src/lexer.rs:195-257 | the `while let` loop of `get_children` computes `ChildrenOf` |
| Lexer.Pairs | rocal_ui/src/lexer.rs:34-37 | the node keeps one `(key, value)` pair per attribute, in order |
| Lexer.ParseLexeme | rocal_ui/src/lexer.rs:123-191 | a lexeme consumes at least one token, its body is shorter than the input, and exactly the `<>` tag has no body |
| Lexer.ParseTag | rocal_ui/src/lexer.rs:127-176 | after `<`: a tag, with a body exactly when it is not `<>` |
| Lexer.ParseText | rocal_ui/src/lexer.rs:177-181 | `{ "…" }` is one token and gives a text |
| Lexer.NamedTag | rocal_ui/src/lexer.rs:148-173 | `<name …>` gives a named tag whose body is shorter than the input |
| Lexer.ParseWhole | rocal_ui/src/lexer.rs:82 | `syn::parse2` succeeds only when the lexeme reads the whole stream |
| Lexer.Dst | rocal_ui/src/lexer.rs:66-111 | `dst` appends exactly one node to the parent and keeps its element, attributes and earlier children |
| Lexer.Parse | rocal_ui/src/lexer.rs:22-63 | every element of the resulting tree has at most one child |
| Lexer.ChunkPrefix | rocal_ui/src/lexer.rs:202-233 | a skip decided on a prefix does not change when more tokens follow |
| Lexer.SkipUnfold | rocal_ui/src/lexer.rs:204-249 | a skip pushes its tokens and continues after them |
| Lexer.ShiftShift | rocal_ui/src/lexer.rs:206-245 | pushing in two steps is pushing the concatenation |
| Lexer.CleanRest | rocal_ui/src/lexer.rs:202-253 | a body the scan reads through begins with a skip and goes on cleanly |
| Lexer.SplitAppend | rocal_ui/src/lexer.rs:202 | splitting a concatenation inside its first part |
| Lexer.ScanAppend | rocal_ui/src/lexer.rs:195-257 | after a part the scan reads through, it continues on what follows as if from there |
| Lexer.CleanAppend | rocal_ui/src/lexer.rs:195-257 | two clean parts make a clean whole |
| Lexer.CloseAfterClean | rocal_ui/src/lexer.rs:236-240 | a clean body followed by `</name>` is returned as the body, and four more tokens are consumed |
| Lexer.StuckAfterClean | rocal_ui/src/lexer.rs:202-253 | a stream ending in `<`, `</` or `</name` makes the scan loop forever |
| Lexer.NoAngleClean | rocal_ui/src/lexer.rs:204-209 | a stream without `<` is read through |
| Lexer.OpenClean | rocal_ui/src/lexer.rs:212-220 | `<x` and `<>` are read through |
| Lexer.CloseClean | rocal_ui/src/lexer.rs:223-233 | the closing tag of another name is read through |
| Lexer.AsAttributes | rocal_ui/src/lexer.rs:260-264 | a text attribute per pair, in order |
| Lexer.PairsOfAttributes | rocal_ui/src/lexer.rs:275-289 | the pairs kept by the node are the pairs written |
| Lexer.NoAngleInAttrs | rocal_ui/src/lexer.rs:275-289 | printed attributes hold no `<` |
| Lexer.PrintClean | rocal_ui/src/lexer.rs:195-257 | a printed tree whose element names differ from an enclosing `name` is read through by the scan for `</name>` |
| Lexer.OpensShape | rocal_ui/src/lexer.rs:127-154 | the parts of a printed opening tag |
| Lexer.OpenAttributes | rocal_ui/src/lexer.rs:141-146 | printed `key = "value"` triples parse back to the same attributes |
| Lexer.NamedLexeme | rocal_ui/src/lexer.rs:137-173 | a stream shaped as an opening tag, attributes and a scanned body gives that tag |
| Lexer.TagLayer | rocal_ui/src/lexer.rs:137-146 | once the attributes parse, the lexeme is the tag after them |
| Lexer.NamedLayer | rocal_ui/src/lexer.rs:148-173 | the tag after the attributes is the one with the scanned body |
| Lexer.Regroup | rocal_ui/src/lexer.rs:156-158 | concatenation regrouped |
| Lexer.PrintOpens | rocal_ui/src/lexer.rs:127-158 | a printed element opens with `<name`, its attributes and `>`, followed by its child and `</name>` |
| Lexer.PrintedBody | rocal_ui/src/lexer.rs:156-158 | the scan returns exactly the printed child as the body |
| Lexer.PrintedAttributes | rocal_ui/src/lexer.rs:141-146 | printed attributes parse back to the node's pairs |
| Lexer.PrintedParts | rocal_ui/src/lexer.rs:137-173 | a printed element has the shape of a named tag |
| Lexer.NamedPrinted | rocal_ui/src/lexer.rs:137-173 | a printed element lexes to its tag with the printed child as body |
| Lexer.ParseLexemePrinted | rocal_ui/src/lexer.rs:123-191 | every printed tree without same-name nesting lexes to its own lexeme, whatever follows |
| Lexer.ParseWholePrinted | rocal_ui/src/lexer.rs:82 | and the lexeme reads the whole printed stream |
| Lexer.DstPrinted | rocal_ui/src/lexer.rs:66-111 | `dst` of a printed tree's lexeme appends that tree to the parent |
| Lexer.ParsePrinted | rocal_ui/src/lexer.rs:22-63 | parsing a printed tree without same-name nesting gives back that tree |
| Lexer.FragmentLexeme | rocal_ui/src/lexer.rs:130-136 | `<>` is the fragment tag with no body, two tokens long |
| Lexer.TextLexeme | rocal_ui/src/lexer.rs:177-181 | `{ "s" }` is the text `s` |
| Lexer.InvalidSyntax | rocal_ui/src/lexer.rs:182-184 | a stream starting with neither `<` nor a brace is refused with "Invalid syntax." |
| Lexer.InvalidTag | rocal_ui/src/lexer.rs:174-176 | `<` followed by neither `>` nor a name is refused with "Invalid tag." |
| Lexer.AttributesStall | rocal_ui/src/lexer.rs:141-146 | a token that is neither `>` nor a name inside an opening tag makes the attribute loop spin forever |
| Lexer.BareTag | rocal_ui/src/lexer.rs:137-173 | `<x>` with its scanned body is the tag `x` with no attributes |
| Lexer.EmptyElementRefused | rocal_ui/src/lexer.rs:41 | `<x></x>` is refused, because an empty body is not a lexeme |
| Lexer.NestedScan | rocal_ui/src/lexer.rs:195-257 | from inside the outer `div` of `<div><div>{"x"}</div></div>` the scan stops at the inner `</div>` |
| Lexer.NestedOuterLexeme | rocal_ui/src/lexer.rs:137-173 | so the outer lexeme ends after the first `</div>`, eleven tokens in |
| Lexer.NestedInnerLexeme | rocal_ui/src/lexer.rs:41 | its body lexes to an inner `div` missing its closing tag, which the scan accepts at the end of the stream |
| Lexer.NestedSameNameRefused | rocal_ui/src/lexer.rs:22-63 | `<div><div>{"x"}</div></div>` is refused with a trailing `</div>` left over |
| HtmlNode.AddChild | rocal_ui/src/models/html_node.rs:27-36 | an element keeps its element, attributes and children and gets `child` as its new last child; any other node is unchanged |
| HtmlNode.Emit | rocal_ui/src/models/html_node.rs:38-169 | as written the generator never fails; when it fails, the message is "Invalid condition" |
| HtmlNode.EmitChildren | rocal_ui/src/models/html_node.rs:69-73 | the children's loop fails only with "Invalid condition", and never as written |
| HtmlNode.Piece | rocal_ui/src/models/html_node.rs:116-152 | a branch writes `if` exactly when it is the first and has a condition, `else` exactly when it has none; with the correction, a branch without a condition that is not the last is refused |
| HtmlNode.EmitBranches | rocal_ui/src/models/html_node.rs:110-154 | the branch loop fails only with "Invalid condition", and never as written |
| HtmlNode.EmitBody | rocal_ui/src/models/html_node.rs:114 | a branch body fails only with "Invalid condition" |
| HtmlNode.ToTokenStream | rocal_ui/src/models/html_node.rs:38-169 | the method, with its loops over attributes, children and branches, computes `Emit` |
| HtmlNode.WriteAttrs | rocal_ui/src/models/html_node.rs:54-58 | the attribute loop writes ` k="v"` for every attribute, in order |
| HtmlNode.ThenThen | rocal_ui/src/models/html_node.rs:62-65 | appending in two steps is appending the concatenation |
| HtmlNode.EmitAppends | rocal_ui/src/models/html_node.rs:38-169 | with the `For` correction, generating into an accumulator appends the node's own statements (`Statements`, an independent definition by structure) to it |
| HtmlNode.ChildrenAppend | rocal_ui/src/models/html_node.rs:69-78 | the children's statements are appended in order |
| HtmlNode.BranchesAppend | rocal_ui/src/models/html_node.rs:110-154 | the branch statements are appended in order |
| HtmlNode.BodyAppends | rocal_ui/src/models/html_node.rs:114 | a body generated into an empty accumulator is its own statements |
| HtmlNode.GenerateFixed | rocal_ui/src/models/html_node.rs:39-45 | without an accumulator the code is the buffer's declaration followed by the tree's statements |
| HtmlNode.PiecesShape | rocal_ui/src/models/html_node.rs:110-154 | with the correction, an `If` gives one statement per branch; only the last may lack a condition; `else` exactly for the one without a condition; `if` exactly for a first branch with one |
| HtmlNode.ElseLast | rocal_ui/src/models/html_node.rs:129-137 | with the correction, no `else` is followed by another branch |
| HtmlNode.StatementsOk | rocal_ui/src/models/html_node.rs:110-154 | with the correction, generation succeeds exactly when every branch without a condition is the last of its `If` |
| HtmlNode.BodyOk | rocal_ui/src/models/html_node.rs:114 | the same for a branch body |
| HtmlNode.SeqOk | rocal_ui/src/models/html_node.rs:71-73 | the same for a list of children: it succeeds exactly when every child does |
| HtmlNode.PiecesOk | rocal_ui/src/models/html_node.rs:111-153 | the same for the branches from `i` on |
| HtmlNode.VoidIgnoresChildren | rocal_ui/src/models/html_node.rs:53-68 | a void element writes only its opening literal, whatever its children |
| HtmlNode.KeepsStart | rocal_ui/src/models/html_node.rs:39-65 | every node except `For` keeps the code it was given as a prefix |
| HtmlNode.BranchesKeep | rocal_ui/src/models/html_node.rs:121-147 | the branch loop keeps the code it was given as a prefix |
| HtmlNode.TextCode | rocal_ui/src/models/html_node.rs:89-94 | a text writes one push of its text |
| HtmlNode.ForDropsCode | rocal_ui/src/models/html_node.rs:155-165 | as written, a text followed by a loop in a fragment generates only the declaration and the loop: the text's push is lost |
| HtmlNode.ForKeepsCode | rocal_ui/src/models/html_node.rs:155-165 | corrected, the text's push is kept before the loop |
| HtmlNode.ElseAnywhere | rocal_ui/src/models/html_node.rs:129-137 | as written, `if x / else / else if y` writes `else` in the middle, followed by an `else if` |
| HtmlNode.ElseInMiddleRefused | rocal_ui/src/models/html_node.rs:129-151 | corrected, that `If` is refused with "Invalid condition" |
| RequestMethod.UpperChar | rocal_core/src/enums/request_method.rs:14 | `to_uppercase` on ASCII: a lower-case letter `a`–`z` becomes its capital and every other character is kept (non-ASCII letters are not capitalised, see "## Left out") |
| RequestMethod.ToUpper | rocal_core/src/enums/request_method.rs:14 | the ASCII part of `to_uppercase`: each character is replaced by its `UpperChar`, so the length is kept (Rust's Unicode mapping can change the length, see "## Left out") |
| RequestMethod.UpperCharTwice | rocal_core/src/enums/request_method.rs:14 | capitalising a character twice is capitalising it once |
| RequestMethod.ToUpperTwice | rocal_core/src/enums/request_method.rs:14 | capitalising a string twice is capitalising it once |
| RequestMethod.Name | rocal_core/src/enums/request_method.rs:25-35 | a method's display name is in capitals, at least three letters long |
| RequestMethod.From | rocal_core/src/enums/request_method.rs:13-22 | `from` gives the method whose name is the input in capitals, and `Post` for any other string |
| RequestMethod.NamesDistinct | rocal_core/src/enums/request_method.rs:25-35 | the five names are pairwise distinct |
| RequestMethod.NameIsKnown | rocal_core/src/enums/request_method.rs:15-32 | every display name is one of the five accepted by `from` |
| RequestMethod.FromName | rocal_core/src/enums/request_method.rs:13-35 | `from` of a method's display name gives back the method |
| RequestMethod.FromIgnoresCase | rocal_core/src/enums/request_method.rs:14 | `from` does not depend on case |
| RequestMethod.FromExactly | rocal_core/src/enums/request_method.rs:13-22 | `from(s)` is `m` exactly when `s` in capitals is `m`'s name, or `m` is `Post` and the name is unknown |
| RequestMethod.LowerCaseGet | rocal_core/src/enums/request_method.rs:14-19 | `get`, `Get` and `delete` are recognised |
| RequestMethod.UnknownIsPost | rocal_core/src/enums/request_method.rs:20 | an unknown or empty name gives `Post` |
| Router.Split | rocal_core/src/router.rs:89 | `split("/")` gives at least one piece |
| Router.JoinSplit | rocal_core/src/router.rs:89 | splitting loses nothing: the pieces joined with `/` give back the string |
| Router.SplitPieces | rocal_core/src/router.rs:89 | no piece contains a slash |
| Router.SplitPrefix | rocal_core/src/router.rs:89 | a piece without a slash, then `/`, then the rest splits as that piece followed by the split of the rest |
| Router.SplitNoSlash | rocal_core/src/router.rs:89 | a string without a slash is one piece |
| Router.SplitJoin | rocal_core/src/router.rs:46 | pieces without slashes, joined, split back into the same pieces |
| Router.ParamKey | rocal_core/src/router.rs:96-97 | the `key` captured by `^<(?<key>.+)>$` is non-empty and is the key between the angle brackets |
| Router.ParamOf | rocal_core/src/router.rs:70 | `<key>` matches the parameter pattern and captures `key` |
| Router.GrowTrie | rocal_core/src/router.rs:31-61 | registering keeps the table of nodes a trie: every node's parent is a node |
| Router.GrowStep | rocal_core/src/router.rs:47-57 | registering takes or makes the child for the next key and goes on from it |
| Router.GrowReaches | rocal_core/src/router.rs:46-60 | every prefix of the registered path is a node, and the action is stored at its end |
| Router.GrowGrows | rocal_core/src/router.rs:47-55 | registering removes no node |
| Router.GrowKeeps | rocal_core/src/router.rs:47-55 | every other node keeps its action |
| Router.GrowOnly | rocal_core/src/router.rs:46-58 | the only new nodes are prefixes of the registered path |
| Router.ExactStep | rocal_core/src/router.rs:105 | a segment with an exact child goes to that child |
| Router.ParamStep | rocal_core/src/router.rs:90-99 | otherwise the parameter child is taken and binds its key to the segment |
| Router.NoChildStep | rocal_core/src/router.rs:100-102 | with neither, resolving fails |
| Router.TakesWalk | rocal_core/src/router.rs:89-106 | a walk from the child taken for a segment is a walk from the parent |
| Router.TakesWalks | rocal_core/src/router.rs:89-106 | the same for every outcome |
| Router.FirstStep | rocal_core/src/router.rs:89-106 | a walk that reaches a node took a child for its first segment |
| Router.WalkReached | rocal_core/src/router.rs:89-106 | a walk reaches a node one level deeper per segment, taking a child for every segment |
| Router.WalkBinds | rocal_core/src/router.rs:89-106 | the arguments a walk produces are those it bound step by step along the keys it took |
| Router.ShiftTakes | rocal_core/src/router.rs:89-106 | the children taken after the first step, shifted by one |
| Router.WalkInTrie | rocal_core/src/router.rs:98-105 | a walk ends at a node of the trie |
| Router.WalkExact | rocal_core/src/router.rs:89-106 | along a path that exists exactly, the walk reaches its end and binds nothing |
| Router.BindOne | rocal_core/src/router.rs:96-97 | a single parameter binds its key to its segment |
| Router.BindNone | rocal_core/src/router.rs:105 | exact segments bind nothing |
| Router.BindKeeps | rocal_core/src/router.rs:97 | a key no parameter binds keeps its value |
| Router.BindLast | rocal_core/src/router.rs:97 | a parameter's key holds its segment when no later parameter binds the same key |
| Router.MergeLast | rocal_core/src/router.rs:75-77 | a query key holds its last value |
| Router.MergeKeeps | rocal_core/src/router.rs:75-77 | a caller argument no query pair names is kept |
| Router.Router.constructor | rocal_core/src/router.rs:22-29 | the router starts with the bare root |
| Router.Router.Register | rocal_core/src/router.rs:31-61 | `register` adds the nodes for the method name and each piece of the route, then stores the action at the last one, keeping the trie |
| Router.Router.ChildFor | rocal_core/src/router.rs:90-99 | the child taken for a segment: the exact child, else a parameter child; none when neither exists |
| Router.Router.MergeQuery | rocal_core/src/router.rs:72-77 | the caller's arguments with every query pair inserted in turn |
| Router.Router.Resolve | rocal_core/src/router.rs:63-114 | `resolve` fails without the method's node; otherwise it walks the path of the parsed URL, or the raw route, from there with the merged arguments; it calls the action found at the node reached, returning `true` exactly when there is one |
| Router.Router.Descend | rocal_core/src/router.rs:89-106 | the loop over the pieces of the path computes the walk |
| Router.RegisteredResolves | rocal_core/src/router.rs:31-106 | after registering a route, its own path walks exactly to the node holding the action |
| Router.RegisterThenResolve | rocal_core/src/router.rs:31-114 | resolving a route just registered on a new router calls its action with the merged arguments |
| Router.WalkThrough | rocal_core/src/router.rs:89-106 | walking through exact nodes first is walking from their end |
| Router.ParamCapture | rocal_core/src/router.rs:89-106 | a route ending in `<key>` resolves any other last segment `v` and binds `key` to `v` |
| Router.TwoPieces | rocal_core/src/router.rs:46 | `/u/k` splits as an empty piece, `u` and `k` |
| Router.TwoPieceParam | rocal_core/src/router.rs:31-106 | a registered `/u/<key>` walks `/u/v` to its node, binding `key` to `v` |
| Router.ParamExample | rocal_core/src/router.rs:31-114 | a route `/u/<key>` registered on a new router resolves `/u/v`, calling its action with `key` bound to `v` |
| ParsedRoute.ParseKeyValue | rocal_core/src/parsed_route.rs:170-196 | `key: value` parses exactly when the key is `controller`, `action` or `view` and both sides are identifiers; it consumes three tokens |
| ParsedRoute.KeyValues | rocal_core/src/parsed_route.rs:148 | every parsed entry has one of the three keys |
| ParsedRoute.Set | rocal_core/src/parsed_route.rs:151-157 | an entry sets the field its key names and leaves the others |
| ParsedRoute.ApplyAll | rocal_core/src/parsed_route.rs:150-158 | the `for_each` over the entries applies them in order |
| ParsedRoute.AppliedFields | rocal_core/src/parsed_route.rs:150-158 | each destination field ends as the value of the last entry with its key, or as it was when there is none |
| ParsedRoute.ParseMethod | rocal_core/src/parsed_route.rs:97-127 | a method keyword is recognised exactly when the route starts with one of the five |
| ParsedRoute.ParseRoute | rocal_core/src/parsed_route.rs:93-161 | a parsed route consumes five tokens and always has its method and path set |
| ParsedRoute.CollectRoutes | rocal_core/src/parsed_route.rs:31-40 | the routes are pushed onto the result in their order |
| ParsedRoute.Meanings | rocal_core/src/parsed_route.rs:31-40 | one route per specification, in order |
| ParsedRoute.KeysPlain | rocal_core/src/parsed_route.rs:17-19 | the three keys are plain identifiers |
| ParsedRoute.EntryHead | rocal_core/src/parsed_route.rs:170-196 | a written entry parses back to itself |
| ParsedRoute.EntryCons | rocal_core/src/parsed_route.rs:148 | a written entry followed by nothing, or by a comma and more entries, parses back to itself followed by the rest |
| ParsedRoute.EntriesSplit | rocal_core/src/parsed_route.rs:148 | the parts of written entries |
| ParsedRoute.EntriesPrinted | rocal_core/src/parsed_route.rs:148 | written entries, with or without a trailing comma, parse back to the same entries |
| ParsedRoute.RouteTokens | rocal_core/src/parsed_route.rs:97-146 | the five tokens of a written route |
| ParsedRoute.RouteHead | rocal_core/src/parsed_route.rs:93-161 | a written route parses to its meaning: the method, the path and the entries applied in order |
| ParsedRoute.RouteCons | rocal_core/src/parsed_route.rs:31-40 | a written route followed by nothing, or a comma and more routes, parses to its meaning followed by the rest |
| ParsedRoute.Assoc | rocal_core/src/parsed_route.rs:33 | concatenation regrouped |
| ParsedRoute.RoutesSplit | rocal_core/src/parsed_route.rs:33 | the parts of written routes |
| ParsedRoute.MeaningsCons | rocal_core/src/parsed_route.rs:31-40 | the meanings of a list of routes, head first |
| ParsedRoute.RoutesPrinted | rocal_core/src/parsed_route.rs:22-40 | written routes, with or without a trailing comma, parse back to their meanings in order |
| ParsedRoute.UnknownKey | rocal_core/src/parsed_route.rs:183-192 | any other key is refused with "unknown property key: " and the key |
| ParsedRoute.MethodRequired | rocal_core/src/parsed_route.rs:122-127 | a route not starting with a method keyword is refused with "Method should be get, post, put, patch, or delete" |
| ParsedRoute.PathRequired | rocal_core/src/parsed_route.rs:131-134 | a method not followed by a string literal is refused with "Path is required" |
| ParsedRoute.NoRoutes | rocal_core/src/parsed_route.rs:31-40 | empty input gives no routes |
| ParsedRoute.DuplicateKey | rocal_core/src/parsed_route.rs:150-158 | when `controller` appears twice, the last one wins |
| Configuration.ParseKeyValue | rocal_core/src/configuration.rs:120-138 | `key: "value"` parses exactly when the key is an identifier and the value a string literal; it consumes three tokens |
| Configuration.Apply | rocal_core/src/configuration.rs:96-102 | one entry sets the field its key names; an unknown key sets the error flag and no field |
| Configuration.DescribedStep | rocal_core/src/configuration.rs:96-102 | one more entry updates the described configuration as `Apply` does |
| Configuration.ApplyAll | rocal_core/src/configuration.rs:93-102 | after the `for_each`, every field is the last entry for its key, and the flag is set exactly when some key is unknown |
| Configuration.ParseConfig | rocal_core/src/configuration.rs:89-113 | `ParsedConfig::parse` computes `Parse` |
| Configuration.PrintSplit | rocal_core/src/configuration.rs:93 | the parts of written entries |
| Configuration.EntryCons | rocal_core/src/configuration.rs:93 | a written entry followed by nothing, or by a comma and more entries, parses back to itself followed by the rest |
| Configuration.PrintedEntries | rocal_core/src/configuration.rs:120-138 | written entries, with or without a trailing comma, parse back to the same entries |
| Configuration.KeysPlain | rocal_core/src/configuration.rs:97-100 | the four keys are plain identifiers |
| Configuration.PrintedConfig | rocal_core/src/configuration.rs:89-113 | written entries with known keys parse to the configuration they describe: each field the last value given for it |
| Configuration.UnknownRefused | rocal_core/src/configuration.rs:101-109 | one unknown key refuses the whole input with "You put (an) invalid attribute(s)" |
| Configuration.PrintedRead | rocal_core/src/configuration.rs:93 | written entries, with any keys, are read back in full |
| Configuration.ParseOk | rocal_core/src/configuration.rs:89-113 | the input is accepted exactly when its entries parse and none has an unknown key |
| Configuration.EmptyInput | rocal_core/src/lib.rs:150-162 | empty input gives the empty configuration, and `build_config` then uses four empty strings |
| Configuration.LaterWins | rocal_core/src/configuration.rs:96-97 | when `app_id` is given twice, the last one wins |
| ParsedAction.TypeIdent | rocal_core/src/parsed_action.rs:84-103 | the name found is never `Option`; references are seen through; other types give nothing |
| ParsedAction.TypeIdentWrap | rocal_core/src/parsed_action.rs:84-103 | a base type under any references and `Option`s gives the base's name, marked optional exactly when an `Option` was on the way |
| ParsedAction.LastSegmentOnly | rocal_core/src/parsed_action.rs:88 | only the last segment of a path counts |
| ParsedAction.OptionWithoutType | rocal_core/src/parsed_action.rs:89-96 | an `Option` with no type argument first gives nothing |
| ParsedAction.ArgOf | rocal_core/src/parsed_action.rs:67-78 | an input gives an argument exactly when it is a typed plain name whose type has a name |
| ParsedAction.ExtractArgs | rocal_core/src/parsed_action.rs:64-82 | the loop over the inputs pushes their arguments in order |
| ParsedAction.ParseAction | rocal_core/src/parsed_action.rs:55-62 | `parse_action` never fails, and gives the function's name and its arguments |
| ParsedAction.ArgsOfAppend | rocal_core/src/parsed_action.rs:67-79 | the arguments of two lists of inputs are those of each in turn |
| ParsedAction.ArgsOfBound | rocal_core/src/parsed_action.rs:67-79 | never more arguments than inputs |
| ParsedAction.ReceiverSkipped | rocal_core/src/parsed_action.rs:68 | `self` contributes no argument |
| ParsedAction.Inputs | rocal_core/src/parsed_action.rs:67 | one input per declaration, in order |
| ParsedAction.DeclaredArgs | rocal_core/src/parsed_action.rs:64-103 | inputs declared by name and wrapped base type give one argument each, with that name, the base's name and whether an `Option` wraps it |
| SnakeCase.AsciiLower | rocal_core/src/utils.rs:9 | `to_ascii_lowercase` lowers `A`–`Z` and keeps every other character |
| SnakeCase.Piece | rocal_core/src/utils.rs:5-12 | an upper-case character becomes `_` and its lower case, without the `_` at the start; any other character is kept |
| SnakeCase.ToSnakeCase | rocal_core/src/utils.rs:1-16 | the loop computes `Snake`, character by character |
| SnakeCase.SnakeLength | rocal_core/src/utils.rs:1-16 | the result is longer than the input by the number of upper-case characters after the first position |
| SnakeCase.NoUpperUnchanged | rocal_core/src/utils.rs:10-12 | input without upper-case characters is unchanged |
| SnakeCase.SnakeAscii | rocal_core/src/utils.rs:1-16 | ASCII input gives ASCII output without upper-case characters |
| SnakeCase.SnakeTwice | rocal_core/src/utils.rs:1-16 | on ASCII input, converting twice is converting once |
| SnakeCase.WideTwice | rocal_core/src/utils.rs:5-9 | a non-ASCII capital stays upper-case, so converting again adds a second `_` |
| SnakeCase.SnakePrefix | rocal_core/src/utils.rs:4-13 | the output for a prefix is a prefix of the output |
| SnakeCase.FirstUpper | rocal_core/src/utils.rs:6-9 | a leading capital is lowered with no `_` before it |
| SnakeCase.LaterUpper | rocal_core/src/utils.rs:6-9 | a later capital appends `_` and its lower case |
| ContentType.Of | rocal_dev_server/src/models/content_type.rs:12-44 | the type given is always one of the fifteen the chain names |
| ContentType.Applies2 | rocal_dev_server/src/models/content_type.rs:21 | a two-extension check applies exactly when the name contains one of the two |
| ContentType.Applies1 | rocal_dev_server/src/models/content_type.rs:15-40 | a one-extension check applies exactly when the name contains it |
| ContentType.OfIsFirstMatch | rocal_dev_server/src/models/content_type.rs:12-44 | the chain gives the type of the first check, in source order, whose extension the name contains (a table-driven reference definition) |
| ContentType.ContainsPrefix | rocal_dev_server/src/models/content_type.rs:13 | a name containing `sub + rest` contains `sub` |
| ContentType.JsonIsJavaScript | rocal_dev_server/src/models/content_type.rs:13-14 | since `contains(".js")` also matches `.json`, a JSON file is served as JavaScript |
| ContentType.JsBeforeHtml | rocal_dev_server/src/models/content_type.rs:13-16 | a name containing both `.js` and `.html` is served as JavaScript |
| ContentType.Unknown | rocal_dev_server/src/models/content_type.rs:41-43 | a name containing none of the extensions is `application/octet-stream` |
| ContentType.NoneApplies | rocal_dev_server/src/models/content_type.rs:13-43 | the same from any check on |
| ContentType.FilePath | rocal_dev_server/src/lib.rs:113-118 | the file read for a request path is the path without its first character, or `index.html` for a path of at most one character |
| ContentType.MissingChar | rocal_dev_server/src/models/content_type.rs:13 | a name lacking a character of an extension does not contain it |
| ContentType.RootIsHtml | rocal_dev_server/src/lib.rs:113-136 | `/` is served from `index.html` as `text/html; charset=UTF-8` |
| CliList.Bullet | rocal_cli/src/commands/utils/list.rs:60-62 | the bullet at an indent is one of `.`, `*`, `+`, `-` |
| CliList.Repeat | rocal_cli/src/commands/utils/list.rs:54-57 | `n` copies of one character: the indent spaces here, and the padding spaces and rule dashes of the table |
| CliList.ChildTextsAt | rocal_cli/src/commands/utils/list.rs:71-73 | each child is written one level deeper |
| CliList.ConcatStep | rocal_cli/src/commands/utils/list.rs:71-73 | writing one more part adds it at the end |
| CliList.Indent | rocal_cli/src/commands/utils/list.rs:52-57 | the `while 0 < i` countdown writes exactly `indent` spaces |
| CliList.Print | rocal_cli/src/commands/utils/list.rs:51-76 | `print` writes the indent, the bullet line when there is a text, then each child one level deeper |
| CliList.PrintChildren | rocal_cli/src/commands/utils/list.rs:71-73 | the loop over the items writes every child's text in order |
| CliList.PrintedIndent | rocal_cli/src/commands/utils/list.rs:51-65 | every node's output starts with exactly `indent` spaces, followed by its bullet and a space when it has a text |
| CliList.EmptyNode | rocal_cli/src/commands/utils/list.rs:59-69 | a node without text or items writes only its indent, with no newline |
| CliList.BulletCycle | rocal_cli/src/commands/utils/list.rs:26-32 | the bullets at depths 0 to 3 are `.`, `*`, `+`, `-`, and they repeat every four levels |
| CliList.AddedLast | rocal_cli/src/commands/utils/list.rs:47-49 | a list added last is written last, one level deeper, after everything written before |
| CliList.List.constructor | rocal_cli/src/commands/utils/list.rs:36-41 | a new list has no text and no items |
| CliList.List.AddText | rocal_cli/src/commands/utils/list.rs:43-45 | `add_text` sets the text and keeps the items |
| CliList.List.AddList | rocal_cli/src/commands/utils/list.rs:47-49 | `add_list` appends the list as the last item, so the output grows by its text one level deeper |
| CliList.List.Display | rocal_cli/src/commands/utils/list.rs:79-83 | the list is printed from indent 0 |
| CliTable.Widths | rocal_cli/src/commands/utils/table.rs:27-34 | one width per header column |
| CliTable.ColWidthIsMax | rocal_cli/src/commands/utils/table.rs:27-34 | a column's width is the length of its longest cell, header included |
| CliTable.Pad | rocal_cli/src/commands/utils/table.rs:46 | `{:<width$}` keeps the cell and pads it to the width, never cutting it |
| CliTable.SeparatorLength | rocal_cli/src/commands/utils/table.rs:36-40 | the separator is `1 + Σ (width + 3)` long |
| CliTable.CellsLength | rocal_cli/src/commands/utils/table.rs:44-48 | a line with a cell for every column is as long as the separator |
| CliTable.CellsPrefix | rocal_cli/src/commands/utils/table.rs:54-56 | a line depends only on the widths of the columns it has cells for |
| CliTable.HeaderLineLength | rocal_cli/src/commands/utils/table.rs:36-48 | the header line is as long as the separator |
| CliTable.FullRowLength | rocal_cli/src/commands/utils/table.rs:36-57 | so is every row with a cell for every column |
| CliTable.TooLongRow | rocal_cli/src/commands/utils/table.rs:30 | a row with more cells than the header makes `col_widths[i]` panic |
| CliTable.ColWidthStep | rocal_cli/src/commands/utils/table.rs:28-34 | one more row widens each column to that row's cell when it is longer |
| CliTable.Widen | rocal_cli/src/commands/utils/table.rs:29-33 | the inner loop widens the array of widths with one row, or fails when the row is longer than the header |
| CliTable.ColumnWidths | rocal_cli/src/commands/utils/table.rs:27-34 | the width loop gives each column's longest cell, and panics exactly when a row does not fit |
| CliTable.BuildSeparator | rocal_cli/src/commands/utils/table.rs:36-40 | `+`, then `width + 2` dashes and `+` per column |
| CliTable.WriteLine | rocal_cli/src/commands/utils/table.rs:53-57 | `|`, then ` cell |` padded to the column's width for each cell, then a newline |
| CliTable.WriteRows | rocal_cli/src/commands/utils/table.rs:52-58 | every row, in order |
| CliTable.Table.constructor | rocal_cli/src/commands/utils/table.rs:9-14 | a new table has no header and no rows |
| CliTable.Table.AddHeader | rocal_cli/src/commands/utils/table.rs:16-18 | `add_header` replaces the header and keeps the rows |
| CliTable.Table.AddRow | rocal_cli/src/commands/utils/table.rs:20-22 | `add_row` appends the row and keeps the header |
| CliTable.Table.Display | rocal_cli/src/commands/utils/table.rs:25-62 | the table writes separator, header, separator, rows and separator, and panics when a row is longer than the header |
| Color.Reset | rocal_cli/src/commands/utils/color.rs:23-25 | the reset sequence is `ESC [ 0 m` |
| Color.Number | rocal_cli/src/commands/utils/color.rs:31-50 | each colour's number is 30–37 for the base eight and 90–97 for the rest |
| Color.CodeIsNumber | rocal_cli/src/commands/utils/color.rs:31-50 | each code is `ESC [`, the colour's number in two digits, and `m` |
| Color.NumberInjective | rocal_cli/src/commands/utils/color.rs:32-49 | no two colours share a number |
| Color.CodesDistinct | rocal_cli/src/commands/utils/color.rs:31-50 | the sixteen codes are pairwise distinct |
| Color.Text | rocal_cli/src/commands/utils/color.rs:27-29 | coloured text is the code, the text, and the reset sequence |
| Color.TextInjective | rocal_cli/src/commands/utils/color.rs:27-50 | the colour and the text can be read back from coloured text |
| CancelSubscription.New | rocal_cli/src/rocal_api_client/cancel_subscription.rs:11-21 | `new` succeeds exactly for a number in the table, with its reason, and otherwise fails with "The reason number is out of options" |
| CancelSubscription.ReasonKeys | rocal_cli/src/rocal_api_client/cancel_subscription.rs:23-36 | the table's keys are exactly 1 to 8 |
| CancelSubscription.ReasonsContiguous | rocal_cli/src/commands/unsubscribe.rs:50-55 | the table has eight entries and every number from 1 to its size is a key, so the listing loop's `unwrap` never fails |
| CancelSubscription.NewInRange | rocal_cli/src/rocal_api_client/cancel_subscription.rs:11-21 | `new` succeeds exactly for 1 to 8 |
| FlashMemory.Stored | examples/self_checkout/src/models/flash_memory.rs:20 | inserting sets the key and keeps every other entry |
| FlashMemory.Taken | examples/self_checkout/src/models/flash_memory.rs:30-34 | reading gives the stored value or the empty string, and removes the key while keeping every other entry |
| FlashMemory.ReadOnce | examples/self_checkout/src/models/flash_memory.rs:15-35 | a value set is read once; a second read gives the empty string |
| FlashMemory.OtherKeys | examples/self_checkout/src/models/flash_memory.rs:15-35 | setting one key neither changes what another key reads nor what that read leaves |
| FlashMemory.FlashMemory.constructor | examples/self_checkout/src/models/flash_memory.rs:11-13 | the memory starts with the given map |
| FlashMemory.FlashMemory.Set | examples/self_checkout/src/models/flash_memory.rs:15-24 | `set` always succeeds and stores the value under the key |
| FlashMemory.FlashMemory.Get | examples/self_checkout/src/models/flash_memory.rs:26-35 | `get` always succeeds, gives the stored value or the empty string, and removes the key |
| FlashMemory.SetThenGetTwice | examples/self_checkout/src/models/flash_memory.rs:15-35 | on one memory, `set` then two `get`s give the value and then the empty string, leaving the key absent and every other entry as it was |
| Note.Title | examples/simple_note/src/models/note.rs:11-21 | the title read is never empty: an empty title reads as `None`, any other as itself |
| Note.Body | examples/simple_note/src/models/note.rs:23-25 | the body is read unchanged; unlike the title, an empty body stays `Some("")` rather than reading as `None` |
| Note.TitleTwice | examples/simple_note/src/models/note.rs:11-21 | reading the title of a note whose title was already read gives the same |
| Entries.Lookup | rocal_core/src/configuration.rs:96-102 | there is a value for a key exactly when some entry has that key |
| Entries.LookupLast | rocal_core/src/parsed_route.rs:150-158 | the value is that of the last entry with the key |

## Left out

- The internals of `syn`, `proc_macro2` and `quote` are abstracted. Tokens are a small datatype (`Tokens.Token`). The model raises "unexpected token" in the iteration that leaves tokens behind in a `braced!` group. Spans and the compile-error token streams are not modelled.
- Parsing a Rust expression with `syn::Expr` is abstracted: any non-empty token sequence is accepted. So are the checks of `Ident::new` and `parse_str(..).expect(..)` in `models/html_node.rs` and in `html/to_tokens.rs`, which would panic on text that is not an identifier or an expression.
- `HtmlElement` is not part of this model. Any identifier names an element, `Fragment` is the reserved root, and the void elements are the thirteen of the WHATWG HTML Living Standard, section 13.1.2.
- Loops that cannot terminate are modelled as the error `Diverges`. These are the attribute loops, which make no progress on a token that is neither a key nor `>`, and `Lexeme::get_children` at a final `<`, `</` or `</name`.
- The shared `Rc<RefCell<…>>` nodes of `lexer.rs` and `models/html_node.rs` are modelled as values. `dst` and `add_child` return the updated parent instead of mutating it through a shared pointer, so aliasing between the nodes is not modelled.
- The generated Rust is modelled as statement datatypes (`ToTokens.Stmt`, `HtmlNode.Code`), not as text. `ToTokens.Run` gives the emitted program a meaning. It takes the values of the embedded Rust expressions and iterables as a parameter.
- Router.Router.Resolve: `Url::parse` is not modelled. The caller passes the parsed URL's path and query pairs, or nothing when parsing fails. The regular expression of path parameters is written out as `IsParam`.
- Router.Walk: when several parameter children could be taken, the source takes the first in `HashMap` order. The model allows any of them, so the walk is a relation rather than a function. `Resolve` is proved to follow some such walk.
- `Resolve`'s `async` call of the action is modelled as returning the action and its arguments.
- `Router.Router.Resolve` and `Router.Router.Register` key the trie by paths rather than by nested `HashMap` nodes. The trie they describe is the same, but node identity is not modelled.
- Html5.Braced, Html5.RunBraced, Recursive.Braced, Scan.ParseAttribute: these raise "unexpected token" as soon as a `braced!` buffer has tokens left after the literal or the inner `{ … }`. The buffers are `content` at `rocal_ui/src/html5.rs:117` and 135, `html.rs:101` and 109 and `html2.rs:86` and 94, and the attribute values at `html5.rs:396-397` and `html.rs:419-420`. syn is later: dropping an unfinished buffer only records the leftover in a cell it shares with the enclosing stream. It reports "unexpected token" when the enclosing `parse2` ends, and only if the parser returned `Ok`. In `html.rs` and `html2.rs` that `parse2` is the element body's; in `html5.rs` it is the whole template's. So a later error is returned instead, and a later endless loop hangs. Take `{ "a" "b" } </p>` in `html5.rs`: the source gives "Invalid syntax", the model "unexpected token". `{ "a" "b" } <div` never ends in the source (the model's `Diverges`), while the model returns "unexpected token". On every input the source finishes, the two agree on whether it fails. They can differ only in the message. Html5Facts.TextWithTrailing is therefore stated about a whole template, where no later error can come first.
- ParsedRoute.ParseRoute: `Tokens.Token` has no spacing, so the model does not know whether a `Punct` is Joint or Alone with the next one. `Token!(=>)` at `rocal_core/src/parsed_route.rs:135-140` reads `=>` only when the `=` is Joint with the `>`. The source therefore refuses `get "/" = > { controller: c }` with "Path and destination should be separated by =>", while the model accepts it, because it tests only that `=` is followed by `>`. On routes written with `=>` the two agree.
- Tokens.StreamText, Tokens.TokenText: without spacing, every pair of trees is printed with one space between them. `TokenStream::to_string` prints a Joint punct with no space after it. So a condition or iterable holding a multi-character operator comes out split: `a == b` is printed "a = = b" where the source prints "a == b". This reaches the `If`, `ElseIf` and `For` texts built at `rocal_ui/src/html5.rs:163`, 187 and 237, `html.rs:128` and 143 and `html2.rs:113` and 128. The split text is not the same Rust expression any more. Beyond Joint puncts the model does not follow the printer's spacing either: it always puts one space between two trees and none inside a group's delimiters.
- Tokens.IdentError: the model gives syn's messages without the "unexpected end of input, " prefix that syn adds when the error is at the end of a stream. This applies, for example, to a `for` with nothing after it. The same holds for the other syn messages of the model ("expected `in`", "expected curly braces", "expected `>`", "expected string literal").
- ToTokens.CollectStmts: always returns the generated statements. While the `view!` macro expands, `html/to_tokens.rs` would panic instead: `parse_str::<Expr>(..).expect(..)` at lines 111-112 (sanitized variable), 119-120 (variable), 127-128 (`if` condition), 137-138 (`else if` condition) and 155-156 (`for` iterable), and `Ident::new` at line 154 (`for` binding). Examples are `{{ 1 + }}` and a `for` binding that is not an identifier. Rust's expression and identifier grammar is not part of this model, so neither is that panic. `ToTokens.Collect` has the same gap.
- RequestMethod.ToUpper: capitalises only `a`–`z`. Rust's `str::to_uppercase` follows Unicode: it also capitalises non-ASCII letters ('é' to 'É') and can lengthen the string ('ß' to "SS"). The Unicode case tables are not part of this model. `RequestMethod.From` does not depend on them. No non-ASCII character upper-cases into a letter of "GET", "PUT", "PATCH" or "DELETE". Those that give "S" or "ST" ('ſ', 'ﬅ', 'ﬆ') can only reach "POST", and `Post` is also the default for an unknown name. The same applies to `RequestMethod.UpperChar`.
- ContentType.FilePath: `resource.len()` and `&resource[1..]` in `rocal_dev_server/src/lib.rs:113-114` count bytes, while the model counts characters. For targets that start with `/` the two agree. For a target whose first character is not ASCII, the source panics because byte 1 is not a character boundary, while the model drops that character.
- CliTable.Pad: `cell.len()` counts bytes while the `{:<width$}` padding counts characters. The model treats a string as a sequence of characters for both, so the misalignment of non-ASCII cells is not modelled.
- SnakeCase.Snake: `char::is_uppercase` follows the Unicode tables. The model takes the non-ASCII upper-case characters as a parameter set.
- `FlashMemory`'s lock is left out, so the `map_err` branch for a poisoned lock is never taken. `set` and `get` are proved to always succeed.
- The `len` counters of `Stack` and `Queue` are unbounded integers. A `usize` overflow is impossible in any run that fits in memory.
- Output through `fmt::Formatter` is modelled as the string written. A formatter error is not modelled.
- The following are not part of this model:
  - the `build_ui`/`lex_html` glue that runs the parsers;
  - the newer `html.rs` that `to_tokens.rs`'s `SanitizedVar`, `DocType` and optional attribute values come from (`to_tokens.rs` is modelled with its own tree shape);
  - the development server's TCP and file I/O, apart from its file-name rule (`ContentType.FilePath`);
  - the CLI's command flow and network clients;
  - browser, database, worker and floating-point code in the examples.

## Findings

| source | as written | input that shows it | evidently intended | confidence | as-written member | corrected member |
|---|---|---|---|---|---|---|
| rocal_ui/src/data_types/queue.rs:42-49 | `dequeue` of the last value sets `start` to `None` but leaves `end` at the removed cell. `enqueue` then links the new value behind that cell and leaves `start` empty. | enqueue 1, dequeue, enqueue 2, dequeue: the second dequeue gives `None`, not 2, and `len` stays 1 | removing the last value also clears `end` | not executed | DataQueue.RefillAfterDrain | DataQueue.Queue.DequeueFixed |
| rocal_ui/src/html.rs:273-277 | `get_next_input` pushes every tag name that follows a `<` onto its stack of opening tags, void elements included. A `</div>` then pops only when `div` is on top. | `<div><div><br></div></div>` fails with "The syntax is invalid" | only the scanned element's own name is recorded, so nested `div`s parse | not executed | Html.NestedDivsAsWritten | Html.NestedDivsFixed |
| rocal_ui/src/html2.rs:258-262 | the same scan as in `html.rs` | `<div><div><br></div></div>` fails with "The syntax is invalid" | only the scanned element's own name is recorded | not executed | Html2.NestedDivsAsWritten | Html2.NestedDivsFixed |
| rocal_ui/src/html2.rs:349-350 | for an empty body, `get_next_input` returns `(None, rest)` with the cursor still before `</p>`. `html.rs:365` returns `next4`, after it. | `<p></p>` fails with "The syntax is invalid" when parsing resumes at `</p>` | the closing tag of an empty body is consumed | not executed | Html2.EmptyBodyAsWritten | Html2.EmptyBodyFixed |
| rocal_ui/src/models/html_node.rs:160-164 | the `For` arm sets `html` to the loop alone, dropping the code accumulated before it | a fragment holding a text and then a `for`: the text's `html += "a"` is lost | the loop is appended after `#html`, as in every other arm | not executed | HtmlNode.ForDropsCode | HtmlNode.ForKeepsCode |
| rocal_ui/src/models/html_node.rs:129 | the pattern `(_last_idx, None)` binds a fresh name, so it matches a branch without a condition at any position. The `_ => panic!("Invalid condition")` arm is unreachable. | `if x / else / else if y` generates `else` followed by `else if` | `else` only for the last branch, and "Invalid condition" otherwise | not executed | HtmlNode.ElseAnywhere | HtmlNode.ElseInMiddleRefused |
