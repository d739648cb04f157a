# The wall puzzle, modelled in Dafny

The wall puzzle is a directed graph whose edges are coloured red or blue. A
solution is a shortest path from a start node to an end node on which no two
consecutive edges have the same real colour. The program reads the graph from
text. Each line holds a node name and its edges, for example `a red:b blue:a`.
It searches over states `(colour of the last edge, node)` and prints the path it
finds one step per line, `a ==(red)=> b`.

This project models that core:

- `colors.dfy` (module `Colors`): the colour domain, its printed names, the
  lenient conversion from a name, and the rule that decides which edge may
  follow which.
- `graphs.dfy` (module `Graphs`): edges, the graph as a map from node name to
  its edge list, the successor rule of the search, and paths.
- `parser.dfy` (module `Parser`): the nom-style combinators (`alpha1`,
  `space1`, `tag`, `separated_list1`, `separated_list0`), the edge, node and
  puzzle parsers, and the collection of lines into a map.
- `format.dfy` (module `PuzzleFormat`): the puzzle format as written text,
  with any runs of spaces and tabs and any colour words. It is used to prove
  that such text is read back as exactly its lines, and that everything the
  parser reads is such text.
- `search.dfy` (module `Search`): the search, written as a breadth-first
  search. It keeps a queue, a map from each discovered state to its distance
  and a parent map, and is proved to return a valid path that is as short as
  any other. It also models the abort that the program's unchecked map lookup
  causes, and a corrected search without it.
- `report.dfy` (module `Report`): the loop that prints a solution, and the
  message printed when there is none.
- `examples.dfy` (module `Examples`): the program's own unit-test inputs stated
  on the model, and the input that exhibits the abort.

The pathfinding crate's uniform-cost search, with every step costing one,
expands states in order of distance from the start, as breadth-first search
does. The model does not pin down which of several shortest paths is returned.
`Search.IsAnswer` holds for any of them.

## Model

| member | source | states |
|---|---|---|
| Colors.Display | src/main.rs:21-29 | A colour is printed as a non-empty word of lower-case letters. |
| Colors.FromName | src/main.rs:31-39 | The conversion is total: Red exactly for "red", Blue exactly for "blue", None for every other name. |
| Colors.DisplayRoundTrip | src/main.rs:21-39 | Reading back the printed name of a colour gives that colour. |
| Colors.DisplayInjective | src/main.rs:21-29 | Different colours are printed differently. |
| Colors.CanFollow | src/main.rs:120 | An edge may follow an arrival colour exactly when its colour is None or differs from the arrival colour. After the start colour None, any edge may follow. |
| Graphs.StartState | src/main.rs:107 | The search starts on the start node with colour None. |
| Graphs.KeepLegal | src/main.rs:117-129 | The filtered list holds exactly the edges whose colour may follow, and is no longer than the edge list. |
| Graphs.KeepLegalAppend | src/main.rs:117-129 | Filtering distributes over concatenation, so successors keep the order of the edge list. |
| Graphs.KeepLegalAll | src/main.rs:117-129 | When every edge may follow, nothing is dropped and the order is unchanged. |
| Graphs.Successors | src/main.rs:115-131 | Defined only for a node with an entry, as the unwrap demands. A state is a successor exactly when it is an edge of the node whose colour may follow the arrival colour. |
| Graphs.StartSuccessors | src/main.rs:115-131 | From the start state, the successors are the node's edges, all of them, in textual order. |
| Graphs.IsStep | src/main.rs:115-131 | A step of a path only ever leaves a node that has an entry. |
| Graphs.StepsAreSuccessors | src/main.rs:115-131 | Out of a node with an entry, the steps are exactly the successors the closure returns. |
| Graphs.ColorsAlternate | src/main.rs:120 | Along any path from the start, consecutive steps never repeat a real colour. |
| Parser.Alpha1 | src/main.rs:90 | Succeeds exactly when the input begins with a letter. It then returns the longest run of letters, which the rest does not extend, and the returned word and rest make up the input. |
| Parser.Alpha1Of | src/main.rs:90 | A word followed by a non-letter is read as exactly that word. |
| Parser.Space1 | src/main.rs:91 | Succeeds exactly when the input begins with a space or tab, and consumes the whole run of blanks. |
| Parser.Space1Of | src/main.rs:91 | A run of spaces and tabs before a non-blank is consumed whole. |
| Parser.Tag | src/main.rs:99 | Succeeds exactly when the literal is a prefix of the input, and consumes exactly that literal. |
| Parser.ParseEdge | src/main.rs:97-102 | A successful parse consumes input, yields a destination that is a word, and leaves a rest that does not begin with a letter. |
| Parser.ParseEdgeOf | src/main.rs:97-102 | Every `word:word` followed by a non-letter is read as one edge. Its colour is the conversion of the first word and its destination is the second word. |
| Parser.ParseEdgeSound | src/main.rs:97-102 | Whatever is accepted is a colour word, a colon and a destination word. The colour is the conversion of that word. |
| Parser.ParseEdgeFails | src/main.rs:97-102 | The edge parser fails exactly when the input does not begin with `word:word` followed by a non-letter. |
| Parser.MoreEdges | src/main.rs:92 | The repeated part of `separated_list1` consumes nothing when it finds no edge, and every edge it reads goes to a word. What it reads is stated by `PuzzleFormat.MoreEdgesThen` and `PuzzleFormat.MoreEdgesSound`. |
| Parser.ParseEdges | src/main.rs:92 | A successful edge list is non-empty, consumes input, and every destination is a word. |
| Parser.ParseNode | src/main.rs:89-94 | A parsed line has a word as its name, at least one edge, and words as its destinations. What it reads is stated by `PuzzleFormat.ParseNodeThen` and `PuzzleFormat.ParseNodeSound`. |
| Parser.MoreNodes | src/main.rs:79 | The repeated part of `separated_list0` consumes nothing when it finds no further line, and every line it reads is well formed. |
| Parser.ParseNodes | src/main.rs:79 | The line list never fails. All its lines are well formed, and when it reads none it consumes nothing. What it reads is stated by `PuzzleFormat.ParseNodesThen` and `PuzzleFormat.ParseNodesSound`. |
| Parser.Collect | src/main.rs:83 | Every entry of the collected map is one of the lines, name and edges together. |
| Parser.CollectKeys | src/main.rs:83 | A name has an entry exactly when some parsed line defines it. |
| Parser.CollectLastWins | src/main.rs:83 | A name maps to the edges of the last line that defines it. |
| Parser.ParsePuzzle | src/main.rs:78-86 | Parsing a puzzle never fails. |
| Parser.PuzzleFromStr | src/main.rs:61-74 | The graph keeps the parsed map and drops the unparsed rest (src/main.rs:66-67). Every entry is a line the grammar allows: a word as name, at least one edge, words as destinations. |
| PuzzleFormat.MoreEdgesThen | src/main.rs:92 | Edges written as any run of spaces and tabs, any colour word, a colon and a destination word are read back in order as the edges they stand for, up to text that ends them. |
| PuzzleFormat.MoreEdgesSound | src/main.rs:92 | Conversely, whatever the repeated part of the edge list reads is such written edges, and the text where it stops ends them. |
| PuzzleFormat.ParseNodeThen | src/main.rs:89-94 | A name word followed by written edges and text that ends them is read as that name and the edges the written edges stand for. |
| PuzzleFormat.ParseNodeSound | src/main.rs:89-94 | Conversely, every line the line parser accepts is a name word followed by written edges, and the text after it ends them. |
| PuzzleFormat.ParseNodesThen | src/main.rs:79 | Written lines joined by newlines and followed by text that ends them are read as their lines, in order. |
| PuzzleFormat.ParseNodesSound | src/main.rs:79 | Conversely, every non-empty list of lines read is written lines joined by newlines, and the text after them ends them. |
| PuzzleFormat.ParseNodesText | src/main.rs:79 | Well-formed lines written with single spaces and printed colour names are read back as themselves, consuming the whole text. |
| PuzzleFormat.EndsEdgesText | src/main.rs:92 | Text ends the edges of a line exactly when it does not begin with a letter and does not begin with blanks, `word:word` and a non-letter. |
| PuzzleFormat.WrittenRoundTrip | src/main.rs:61-86 | Reading written lines, with any blanks and colour words, gives the map collected from the lines they stand for, with nothing left over. |
| PuzzleFormat.RoundTrip | src/main.rs:61-86 | Reading canonically written text (single spaces, printed colour names) gives the map collected from its lines, with nothing left over. |
| Search.Reconstruct | src/main.rs:134 | Following parent links from a discovered state gives a path from the start to that state, with exactly its recorded distance as the number of steps. |
| Search.Expand | src/main.rs:115-134 | Discovering the successors of the expanded state keeps the search invariant: the tree of shortest distances, the distance-ordered queue, and the fact that every expanded state has all its successors discovered. |
| Search.Solve | src/main.rs:105-135 | A path found starts at `(None, start)`, follows the successor rule, ends on the end node and is as short as any such path, and no state nearer than its end lacks an entry. "No path" means no reachable state is on the end node and every reachable node has an entry. An abort names a reachable node without an entry that is not the end node, is no farther than any path to the end, and has no entry-less state nearer than itself. |
| Search.AnswerWhenStartIsEnd | src/main.rs:110 | When start and end coincide, the only answer is the one-state path `[(None, start)]`. |
| Search.Completed | src/main.rs:116 | Adds an empty edge list for every destination and the start that lack one, without changing any node's edges. |
| Search.CompletedAnswer | src/main.rs:116 | On the completed graph the search never aborts. Its path is valid and shortest in the original graph, and "no path" holds exactly when no path reaches the end node. |
| Search.SolveTotal | src/main.rs:105-135 | The corrected search never aborts. It finds a shortest valid path, and reports "no path" exactly when no path reaches the end node. |
| Report.StepLine | src/main.rs:176 | A printed line can be read back, delimiters `==(`, `)` and `=> ` included, as the node left, the colour taken and the node reached. |
| Report.PrintSolution | src/main.rs:169-179 | A path of n states gives max(n-1, 0) lines. Line i names the node of state i, then the colour and node of state i+1, so the start state's colour is never printed. |
| Report.StepLineIsNotMessage | src/main.rs:161-164 | A printed step is never the "No solution found" message. |
| Report.Report | src/main.rs:161-164 | A found path prints its steps. "No path" prints exactly the message, and a step line never does. An abort prints nothing. |
| Examples.ColorNames | src/main.rs:186-190 | "red", "blue" and "green" convert to Red, Blue and None. |
| Examples.ReadTwoLines | src/main.rs:193-213 | The two-line input is read as the map with entries for `a` and `c`, with their edges in order. |
| Examples.ReadSpaced | src/main.rs:89-102 | A tab and a double space separate as a single space does, and the unknown colour word `green` is read as None. |
| Examples.ReadTrailingSpace | src/main.rs:218 | With a space before the newline, only the first line is read, and the rest is left unread and dropped. |
| Examples.SimpleAnswer | src/main.rs:217-234 | In the one-edge graph from `a` to `b`, the only answer is the path `(None, a), (Red, b)`. |
| Examples.SolveSimple | src/main.rs:217-234 | Reading and searching the trailing-space input finds that path, which prints as `a ==(red)=> b`. |
| Examples.TwoLinesAnswer | src/main.rs:116 | As written, the search of the two-line graph from `a` to `c` aborts on `b`. |
| Examples.BranchAnswer | src/main.rs:116 | When `a` leads to `b`, which has no entry, and on through `x` to `c`, the search from `a` to `c` aborts on `b` before it reaches `c`. |
| Examples.SolveAsWritten | src/main.rs:116 | Reading and searching that input as written aborts on `b` and prints nothing. |
| Examples.SolveCorrected | src/main.rs:105-135 | With the corrected search, the same input gives "no path" and prints "No solution found". |

## Left out

- Command-line parsing, reading the input file, `main`'s error propagation and writing to standard output (src/main.rs:141-166) are not modelled. `Report.Report` returns the lines that would be printed.
- The error branch of `from_str` (src/main.rs:68-71) is not modelled. `separated_list0` turns a failing line into the end of the list, so `parse_puzzle` never fails, and `Parser.ParsePuzzle` proves it. nom's error value (input and error code) is a plain `Err`.
- The internals of the pathfinding crate's uniform-cost search are not modelled: its binary heap and cost bookkeeping, and which of several equally short paths it returns. The model's breadth-first search is specified only by validity and minimality.
- The abort is modelled as the outcome `Panicked(node)`, not as a process abort with a message on standard error.
- `HashMap` hashing and iteration order are not modelled; the map is a Dafny `map`.
- `test_solve_complex` (src/main.rs:237-281) reads `wall-puzzle.txt`, which is not part of this model.
- Search.Solve: for an abort, the contract says that the node is reachable, lacks an entry, is no farther than the end, and that no entry-less state is nearer. Among entry-less nodes at the same distance, it does not say which one the crate's queue order reaches first. Likewise, when a state on the end node and an entry-less non-goal state are equally near, the contract allows both the path and the abort; which one the program returns depends on the order of the crate's heap.
- The comment on the successor closure (src/main.rs:112-113) describes the successors of a state as the nodes connected to its node, so a node without an entry would have none. The code unwraps the lookup instead (src/main.rs:116). The model follows the code in `Search.Solve` and gives the commented behaviour as `Search.SolveTotal`; see Findings.

## Findings

| source | as written | input that shows it | evidently intended | confidence | as-written member | corrected member |
|---|---|---|---|---|---|---|
| src/main.rs:116 | The successor closure unwraps the map lookup, so expanding any state whose node has no line of its own aborts the program. The grammar needs at least one edge per line, so every sink node is such a node. The same happens when the start node has no line and differs from the end node. | `a red:b blue:a` / `c red:a blue:b`, solved from `a` to `c`: the state (red, b) is expanded and `b` has no entry | A node without an entry has no successors. The search then reports "No solution found". | not executed | Examples.TwoLinesAnswer | Search.SolveTotal |
