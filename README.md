# asyntree core in Dafny

asyntree counts the node kinds of Python syntax trees, and it finds and lists
the files of a project directory. This project models three parts of it and
proves properties of each.

- **The kind-frequency visitor** (`src/asyntree/visitor.py`), in module
  `Visitors`. It defines no kind-specific handler, so every node reaches the
  generic handler. That handler appends the node's class name to the
  visitor's `nodes` list, then visits every node-valued field. A run clears
  the list, visits the root and returns a counter of the list. The model is
  the `Visitor` class, with its `nodes` field as a `seq<string>`. Its methods
  are proved against `PreorderKinds`, the pre-order sequence of kinds.
  Syntax trees are the `Node`/`Field` datatypes of module `Syntax`. A field
  holds one child, a list of children, or a leaf that is never visited. The
  counter is a `map<string, nat>`. The method `CountKinds` builds it the way
  a counter is built from a list. `Tally` is its reference definition, and
  `Total` is the sum of its counts.
- **`process_ast`** (`src/asyntree/api.py`), in module `Api`. It is a run of
  the visitor, copied into a dictionary.
- **File discovery and directory listing** (`src/asyntree/parser.py`), in
  module `Parser`. The file system is replaced by values:
  - `PathState` says what the requested path resolves to. For a directory
    it also holds the items a recursive glob finds, in glob order.
  - `DirTree` is the directory tree that `walk_directory` reads.
  - `ParseDirectory` raises `FileNotFoundError` and `NotADirectoryError` in
    the source's order. It keeps regular files only. Given a non-empty
    include list, it first validates the extensions (`ValueError`), then
    filters by lower-cased suffix.
  - The listing is imperative. The rendered tree is the `Tree` class, and
    `WalkDirectory` adds to it. A hidden entry is skipped. A directory gets
    a branch filled by walking it. A file gets a leaf labelled with its
    name and size. `WalkDirectory` is proved against `Listing`, the
    reference definition of what a walk adds.

The extension check is a prefix match, as `re.match` with `^\.[a-zA-Z]+` is.
It needs a dot and then one ASCII letter, and anything may follow. So
`.py3` is accepted although the error message speaks of alphabetic
characters. The model follows the code here. `ValidExtensionIsPatternMatch`
shows that the simple test equals the pattern match, and
`ExtensionExamples` pins down `.py3`.

## Model

| member | source | states |
|---|---|---|
| Syntax.PreorderLength | src/asyntree/visitor.py:9-11 | the generic handler records one kind per node: the pre-order sequence is as long as the independent node count `Size` |
| Syntax.PreorderOccurs | src/asyntree/visitor.py:9-11 | a kind is recorded if and only if some node of the tree has that kind (checked against the independent `Occurs`) |
| Syntax.ChildAfterParent | src/asyntree/visitor.py:9-11 | a node's own kind is recorded first; every child's whole subtree then follows as one contiguous block |
| Visitors.Tally | src/asyntree/visitor.py:16 | a counter's keys are exactly the distinct elements of the list |
| Visitors.TallyTotal | src/asyntree/visitor.py:16 | every count of a counter is at least 1, and the counts add up to the list's length |
| Visitors.CountKinds | src/asyntree/visitor.py:16 | counting in one pass gives the counter of the list: for each element, its number of occurrences |
| Visitors.Visitor.constructor | src/asyntree/visitor.py:6-7 | a new visitor has recorded nothing |
| Visitors.Visitor.Visit | src/asyntree/visitor.py:5-11 | with no kind-specific handler, visiting a node appends exactly its subtree's pre-order kinds to the record |
| Visitors.Visitor.GenericVisit | src/asyntree/visitor.py:9-11 | appends the node's kind, then the kinds of every node-valued field in field order (list items in list order); nothing else changes |
| Visitors.Visitor.Run | src/asyntree/visitor.py:13-16 | after a run the record is the tree's pre-order kinds, whatever it held before, and the result is their counter |
| Visitors.CountsSumToSize | src/asyntree/visitor.py:13-16 | the counts of a run add up to the number of nodes in the tree, root included |
| Visitors.CountsKeysAreKinds | src/asyntree/visitor.py:13-16 | the keys of a run's counter are exactly the kinds occurring in the tree, each counted at least once |
| Visitors.EmptyModuleCounts | tests/test_visitor.py:8-16 | the tree of an empty source text counts one Module and nothing else |
| Api.ProcessAst | src/asyntree/api.py:6-8 | afterwards the visitor's record is the tree's pre-order kinds; the dictionary is the counter of the tree's kinds: keys are the kinds that occur, values are at least 1 and sum to the node count |
| Api.ReusedVisitorAgrees | src/asyntree/api.py:6-8 | a visitor used before on another tree, the same visitor called twice, and a new visitor all give the same dictionary |
| Api.HelloWorldKinds | tests/test_api.py:19-30 | the tree of `def hello(): return 'world'` is visited as Module, FunctionDef, arguments, Return, Constant |
| Api.NameLoadKinds | tests/test_visitor.py:62-63 | the tree of the expression statement `x` is visited as Module, Expr, Name, Load: the context of a name is a node and is counted, while the identifier is a payload and is not |
| Api.HelloWorldCounts | tests/test_api.py:19-30 | its dictionary holds FunctionDef and Return, FunctionDef at least once, and five nodes in all |
| Parser.ValidExtensionIsPatternMatch | src/asyntree/parser.py:24-25 | the extension test holds exactly when a prefix of the extension is a dot followed by ASCII letters |
| Parser.ExtensionExamples | src/asyntree/parser.py:24-25 | `.py`, `.PY` and `.py3` pass; `py`, `.`, `.3py` and the empty string fail |
| Parser.RegularFiles | src/asyntree/parser.py:21 | keeps exactly the found items that are files, each as often as it was found, in glob order |
| Parser.WithSuffixIn | src/asyntree/parser.py:28-29 | keeps exactly the files whose lower-cased suffix is in the set, each as often as it occurs, in order |
| Parser.ParseDirectory | src/asyntree/parser.py:12-31 | a missing path gives FileNotFoundError, and a non-directory gives NotADirectoryError. ValueError comes exactly when a non-empty include list has an invalid extension. The result is Ok exactly for a directory whose include list is absent, empty or all valid. Then it keeps glob order and every occurrence of each found file whose lower-cased suffix is among the lower-cased includes (every file when there is no include list or an empty one), and nothing else |
| Parser.EntryLeTotal | src/asyntree/parser.py:35-38 | any two entries are comparable by the key (is a file, lower-cased name) |
| Parser.EntryLeTransitive | src/asyntree/parser.py:35-38 | the key order is transitive |
| Parser.Insert | src/asyntree/parser.py:35-38 | inserting into a key-sorted sequence keeps it sorted and adds exactly that one entry |
| Parser.SortEntries | src/asyntree/parser.py:35-38 | the result is sorted by key and is a permutation of the directory's entries |
| Parser.ListingOrder | src/asyntree/parser.py:35-38 | in a listing, directories come before files; within each group, lower-cased names never decrease |
| Parser.ListingNoHidden | src/asyntree/parser.py:40-42 | no item of the listing, at any depth, has a name starting with a dot |
| Parser.ListingIsVisibleEntries | src/asyntree/parser.py:40-51 | the listing renders each visible entry of the directory exactly once, and nothing else |
| Parser.Tree.constructor | src/asyntree/parser.py:45 | a new branch has its label and no children |
| Parser.Tree.Add | src/asyntree/parser.py:45-51 | adding appends exactly one child |
| Parser.AddEntry | src/asyntree/parser.py:44-51 | a directory adds one branch labelled with its name, holding its own walk; a file adds one leaf labelled with its name and size |
| Parser.WalkStep | src/asyntree/parser.py:40-51 | one pass of the loop moves the next entry's rendering (nothing if it is hidden) from the pending listing to the tree |
| Parser.WalkEntries | src/asyntree/parser.py:40-53 | the loop appends, in the given order, the rendering of every entry that is not hidden |
| Parser.WalkDirectory | src/asyntree/parser.py:34-53 | walking a directory appends exactly its listing to the tree's children and changes nothing else |

## Left out

- `src/asyntree/visitor.py` defines only `Visitor`. The `ImportVisitor` that `tests/test_visitor.py` imports is defined in no source file, so it is not modelled.
- `visit_<Kind>` dispatch is not modelled beyond the case this visitor has. The subclass defines no kind-specific handler. The base `ast.NodeVisitor` has one, `visit_Constant`, but with no legacy `visit_Num`/`visit_Str`/... handler defined it forwards to the generic handler. So every node, `Constant` included, reaches the generic handler.
- List fields hold node items only. Generic descent skips any other list item, so such items are dropped from `Many`.
- `src/asyntree/api.py` defines only `process_ast`. The api functions that `cli.py` (lines 24, 44, 59, 74) and `tests/test_api.py` (lines 7-14) call, such as `describe`, `to_tree`, `to_llm`, `to_requirements` and `analyze_directory`, are defined nowhere in it and are not modelled. `cli.py`, `main.py` and `parse_ast` are not part of this model either.
- Visitors.Tally: a counter is a `map`, so the key order of `Counter` and of the `dict` built from it (first occurrence in pre-order) is not modelled. Nothing in the core depends on that order.
- The file system is an input value. Path resolution, the current directory, `rglob`, `iterdir`, `is_file`/`is_dir` and `stat` are replaced by `PathState`, `Found` and `DirTree`. A missing `directory_path` falling back to the current directory is folded into the given `PathState`.
- Parser.ParseDirectory: the suffix of a found file (`Path.suffix`) is taken as given, not computed from its path. A non-string include item (a `TypeError` in `re.match`) cannot occur, since includes are strings.
- Parser.Lower: lower-casing is ASCII-only. Python's full Unicode `str.lower` is not modelled, so the order and the suffix filter agree with the source only for ASCII names.
- Parser.WalkDirectory: walking a path that is not a directory (an `iterdir` error) cannot be expressed, because a `DirTree` is always a directory.
- Parser.WalkDirectory: the sort is a separate step from the loop, which is `WalkEntries`.
- Parser.AddEntry: a directory's branch is appended after it has been filled, not appended first and filled in place. Both give the same finished tree; the aliasing of the branch is not modelled.
- Parser.SortEntries: the sort is stable, like Python's `sorted`, but only sortedness and permutation are proved, not stability.
- Parser.Tree.Add: Rich markup escaping, text styles and the decimal formatting of file sizes are left out. A file leaf carries the file's name and byte size.
- Visitors.Visitor.Run: Python's recursion limit is not modelled. Each tree level takes several interpreter frames: the inherited `visit`, `generic_visit`, and the inherited descent it calls. So a tree a few hundred levels deep, such as the left-nested `BinOp` chain of a long `1 + 1 + ... + 1`, makes a run raise `RecursionError`. The model always returns.
- Parser.WalkDirectory: the recursion limit is not modelled either. A directory nested deeper than the interpreter's limit raises `RecursionError`; the model always returns.
- Parser.WalkDirectory: every entry is either a regular file or a directory, so some cases cannot occur in the model:
  - The source's key is "is a regular file", so a FIFO, a socket or a broken symlink sorts among the directories. It is then rendered as a file leaf, since it is not a directory. `ListingOrder`'s "directories before files" means "non-files before files" in the source.
  - Taking the size of a broken symlink raises `FileNotFoundError`.
  - A directory symlink pointing back to an ancestor makes the walk recurse without end. A `DirTree` is finite and acyclic.
