# oxisql core in Dafny

oxisql is an interactive MySQL shell. This project models its core and proves
properties of the model:

- **the prefix trie** (`common.dfy`, `trie.dfy`). It stores the statements the
  user has run and the database's table names. Each node has 256 child slots,
  and a character selects the slot `c as u8`.
- **the line editor** (`editor.dfy`). This is the key loop of
  `run_mysql_session`: one key at a time it
  - edits the input line and moves the cursor;
  - recalls earlier statements that start with the line (ArrowUp, ArrowDown);
  - completes the word before the cursor from the table names (Tab);
  - ends when Enter follows a `;`, or when Ctrl-D is pressed on an empty line.

  A submitted line is trimmed. Then `exit;`/`quit;` ends the session, `clear;`
  clears the screen, and any other line is added to the history and run.
- **the query buffer** (`query.dfy`). It keeps two texts: the one shown and the
  one sent to the server.
- **the table printer** (`formatter.dfy`). It prints a result table with
  box-drawing borders and right-aligned cells, each column as wide as its
  widest entry.
- **the connector's result handling** (`connector.dfy`):
  - the statement kind. A first word that starts with INSERT, UPDATE or DELETE,
    in any case, reports a count of affected rows. Any other statement fetches
    a table.
  - the text of each fetched cell, chosen by the column's type name;
  - the table of header names and per-row maps built from the fetched rows.

Each mutable entity of the source is a class:

- `PrefixTrie.Trie` keeps its nodes in an arena, a sequence of nodes addressed
  by index.
- `QueryBuffer.Query` holds the two texts.
- `LineEditor.Editor` holds the key loop's variables.

The operations that change these objects are methods, proved against pure
specification functions: `SearchOf`, `Next`, `Run`, `Render`, `TableOf`. The
properties are proved about those functions.

Terminal reads become a sequence of `KeyPress` values. The terminal writes
after each key become the pure value `Redraw`: the shown line and how far the
cursor moves back from its end. The database is abstracted as parameters: the
rows a statement fetched, or the rows it changed, or its error.

Some of the code's behaviour is easy to misread; the model follows the code:

- ArrowUp never searches the history again. ArrowDown searches again only
  when it brings the offset back to 0, and then for the empty line. Otherwise
  the candidate list comes from the last Backspace, character, return to
  offset 0 or line start.
- Backspace searches again but keeps the recall offset. `BackspaceStrandsOffset`
  shows that a later ArrowUp can then index before the list and panic. For
  example, with `a;` and `b;` stored, the keys are ArrowUp, ArrowUp, Backspace,
  ArrowUp. `HistoryOffsetInRange` shows that no other key can do this. The
  model records the panic as the outcome `Panic`.
- The first Tab on a new word only selects the first match. Later Tabs replace
  the word and the rest of the line with the current match and step the index
  on. The cursor does not move.
- Recall candidates are not ordered by when they were run. They come in the
  trie's collection order.

## Model

| member | source | states |
|---|---|---|
| `Common.TrimStart` | src/main.rs:239 | the result is a suffix of the input, does not start with whitespace, and everything dropped is whitespace |
| `Common.TrimEnd` | src/main.rs:239 | the result is a prefix of the input, does not end with whitespace, and everything dropped is whitespace |
| `Common.Trim` | src/main.rs:239 | the trimmed line neither starts nor ends with whitespace |
| `Common.TrimPadded` | src/main.rs:239 | whitespace added around a line is removed again: `Trim(a + s + b) == Trim(s)` |
| `Common.TrimIdempotent` | src/main.rs:239 | trimming twice is trimming once |
| `PrefixTrie.Trie.constructor` | src/trie.rs:10-15 | a new trie is well formed, stores nothing, and every non-empty search is empty |
| `PrefixTrie.Trie.Insert` | src/trie.rs:17-27 | stays well formed; the content gains the word on its key path (replacing a word with the same path); the word is found by searching for itself; every other stored word is kept; inserting a stored word changes nothing |
| `PrefixTrie.Trie.WalkCreating` | src/trie.rs:18-25 | the walk ends at the node on the word's key path; allocating missing children keeps the trie well formed and its stored words unchanged |
| `PrefixTrie.Trie.SearchAll` | src/trie.rs:29-41 | returns the collection at the node on the prefix's key path; a word is returned exactly when it is stored and its key path extends the prefix's; no node on the path means no words |
| `PrefixTrie.SearchOf` | src/trie.rs:29-41 | a search whose key path has no node is empty |
| `PrefixTrie.SearchExactly` | src/trie.rs:29-41 | soundness and completeness: `w` is in the search result if and only if `w` is stored and matches the prefix |
| `PrefixTrie.SearchMonotone` | src/trie.rs:29-41 | a longer prefix never finds a word that a shorter prefix does not |
| `PrefixTrie.MissingSlotEndsSearch` | src/trie.rs:31-35 | when the walk meets an empty slot, no node lies on the prefix's path and no stored word matches |
| `PrefixTrie.CollectExactly` | src/trie.rs:39 | the collection at a node holds exactly the stored words whose key paths extend the node's |
| `PrefixTrie.AddChildWf` | src/trie.rs:21-23 | allocating a missing child keeps the arena well formed and the content unchanged |
| `PrefixTrie.SetWordWf` | src/trie.rs:26 | storing the word at the node on its path keeps the arena well formed and updates the content at that path only |
| `PrefixTrie.StoreWord` | src/trie.rs:26 | after storing, the arena is well formed and the word is found by searching for itself |
| `PrefixTrie.StoreKeepsOthers` | src/trie.rs:19-26 | storing a word keeps every stored word with a different key path; storing a stored word changes nothing |
| `PrefixTrie.WfConsistent` | src/trie.rs:17-27 | every stored word sits at the end of its own key path |
| `PrefixTrie.NarrowKeyPrefix` | src/trie.rs:20 | for characters below 256, key-path prefix and string prefix coincide |
| `PrefixTrie.GoodSound` | src/trie.rs:29-41 | in every well-formed trie state, every search returns exactly the matching stored words |
| `PrefixTrie.OwnWord` | src/trie.rs:17-27 | a node holds a word exactly when its path is stored, and then the word stored on that path |
| `PrefixTrie.EmptyBelowSlot` | src/trie.rs:29-41 | below a slot that another arena with the same contents leaves empty, nothing is collected |
| `PrefixTrie.CollectSameContents` | src/trie.rs:29-41 | two well-formed arenas with the same contents collect the same words in the same order below the nodes on one path |
| `PrefixTrie.CollectFromSameContents` | src/trie.rs:29-41 | the same, for the slots from `k` on |
| `PrefixTrie.LookupByContents` | src/trie.rs:17-41 | the searches of a well-formed trie, words and order, depend only on the words it stores, not on how its arena was built |
| `QueryBuffer.Query.constructor` | src/query.rs:9-14 | both texts start empty |
| `QueryBuffer.Query.HandleChar` | src/query.rs:16-19 | the character is appended to both texts; the sent text stays a subsequence of the shown one |
| `QueryBuffer.Query.HandleEnter` | src/query.rs:21-23 | a line break is appended to the shown text only; the subsequence relation is kept |
| `QueryBuffer.Query.HandleBackspace` | src/query.rs:25-32 | nothing happens on an empty shown text; otherwise each text loses its last character, the sent text only if it has one; the relation is kept |
| `QueryBuffer.Query.SetQuery` | src/query.rs:34-37 | both texts become the given text |
| `QueryBuffer.Query.Clear` | src/query.rs:39-42 | both texts become empty |
| `QueryBuffer.Query.Display` | src/query.rs:45-49 | shows the shown text, which holds every sent character in order and is at least as long |
| `QueryBuffer.TypeThenErase` | src/query.rs:16-32 | typing a character and erasing it restores both texts |
| `QueryBuffer.BackspaceAfterEnter` | src/query.rs:21-32 | after a character and Enter, Backspace removes the shown line break and the sent character: the texts drift apart |
| `LineEditor.CurrentWord` | src/main.rs:189-196 | the word before the cursor is the longest space-free suffix of the text before the cursor |
| `LineEditor.FreshLine` | src/main.rs:103-108 | a new line is empty, with the cursor, offset and completion index at 0, and every stored statement as a candidate |
| `LineEditor.SearchAllStored` | src/main.rs:105 | searching the history for the empty line returns exactly the stored statements |
| `LineEditor.BackspaceKey` | src/main.rs:116-125 | Backspace never ends the line, keeps the cursor on it, removes one character exactly when the cursor is past the start, keeps the recall offset and searches the history for the new line |
| `LineEditor.UpKey` | src/main.rs:131-148 | ArrowUp never searches again; it panics exactly when the list is non-empty and the offset is already past its end |
| `LineEditor.DownKey` | src/main.rs:149-176 | ArrowDown panics exactly when the list is non-empty and the offset is more than one past its end; the list changes only when it returns to offset 0 on an empty line, and then to the whole history |
| `LineEditor.TabKey` | src/main.rs:187-213 | Tab never moves the cursor or touches the recall state, only continues or panics, and any change it makes records the word before the cursor |
| `LineEditor.CharKey` | src/main.rs:214-225 | a character ends the session exactly when it is Ctrl-D on an empty line; any other character is inserted at the cursor, moves it on and resets the recall offset |
| `LineEditor.Next` | src/main.rs:115-229 | only Enter submits, only Ctrl-D ends the session, only ArrowUp, ArrowDown and Tab can panic, and only Backspace, ArrowDown and a character change the candidate list |
| `LineEditor.Editor.constructor` | src/main.rs:102-109 | the editor starts in the fresh-line state of the given history, with its invariant, and records both tries' contents |
| `LineEditor.Editor.Step` | src/main.rs:115-229 | one key changes the state and gives the outcome that `Next` specifies; the invariant is kept; Tab never panics |
| `LineEditor.Editor.DoBackspace` | src/main.rs:116-125 | erases the character before a non-zero cursor, moves the cursor back, and searches the history for the new line |
| `LineEditor.Editor.ShowRecalled` | src/main.rs:139-147 | shows the candidate `offset` places from the end and puts the cursor at its end, unless the candidate is empty |
| `LineEditor.Editor.DoArrowUp` | src/main.rs:131-148 | with candidates, steps the offset back toward the oldest and shows that candidate; an offset already past the list panics |
| `LineEditor.Editor.DoArrowDown` | src/main.rs:149-176 | with candidates, steps the offset forward; at offset 0 it empties the line and recalls the whole history |
| `LineEditor.Editor.DoTab` | src/main.rs:187-213 | as `TabKey` specifies: no matches leaves everything as it was; a new word only selects the first match; the same word again is replaced by the current match and the index moves on cyclically |
| `LineEditor.Editor.DoChar` | src/main.rs:214-225 | Ctrl-D on an empty line ends the session and is otherwise ignored; any other character is inserted at the cursor, the cursor advances, the history is searched again and the offset reset |
| `LineEditor.Editor.ReadLine` | src/main.rs:111-235 | reads keys until one submits, ends the session or panics, or the keys run out, exactly as `Run` specifies for the editor's history and symbols; the invariant is kept |
| `LineEditor.Editor.ReadKey` | src/main.rs:111-229 | reading one key moves the editor one step along the run `Run` specifies, ending it when that key submits, ends the session or panics |
| `LineEditor.NextKeepsInv` | src/main.rs:115-234 | every key keeps the cursor within the line, so the redraw's `input.len() - cursor` never underflows; it keeps the completion index within the matches; Tab never panics |
| `LineEditor.NextOutcome` | src/main.rs:115-234 | after any key the invariant holds; a submit leaves a line ending in `;`; ending the session leaves an empty line; only ArrowUp or ArrowDown can panic |
| `LineEditor.HistoryOffsetInRange` | src/main.rs:131-176 | while the offset is within the candidate list, no key but Backspace can panic or push the offset past the list |
| `LineEditor.BackspaceStrandsOffset` | src/main.rs:116-139 | Backspace keeps the offset while replacing the list, and a shorter list then makes ArrowUp panic |
| `LineEditor.CandidatesMatchInput` | src/main.rs:124 | after a Backspace or a typed character, the candidates are exactly the stored statements that start with the line, compared by key path |
| `LineEditor.CharThenBackspace` | src/main.rs:116-125 | typing a character and erasing it restores the line and the cursor, and the candidates for that line |
| `LineEditor.LeftThenRight` | src/main.rs:177-186 | ArrowLeft then ArrowRight returns the cursor away from the start; neither key changes the line |
| `LineEditor.CompletionNotShorter` | src/main.rs:198-206 | a symbol offered for a word is at least as long as the word, so cutting the word from the line never underflows |
| `LineEditor.CompletionExtends` | src/main.rs:198-206 | every match offered for a word extends it, compared by key path |
| `LineEditor.CurrentWordAfterBreak` | src/main.rs:189-196 | after a space (or at the start), the word before the cursor is the space-free text typed since |
| `LineEditor.CompletionKeepsWord` | src/main.rs:205-206 | after the word is replaced by a match that extends it, the text before the unmoved cursor ends in the same word |
| `LineEditor.TabCycles` | src/main.rs:203-212 | a repeated Tab puts the current match in place of the word and the rest of the line, steps the index cyclically, and leaves the same word before the cursor, so the next Tab continues the cycle |
| `LineEditor.TabAgain` | src/main.rs:203-212 | a repeated Tab with the index in range replaces the word and the rest of the line with the current match and steps the index cyclically, changing nothing else |
| `LineEditor.InsertKeepsWord` | src/main.rs:205-206 | the word fits before the cursor, and after it and the rest of the line are replaced by a match, the same word is before the cursor |
| `LineEditor.WordBeforeCursor` | src/main.rs:189-205 | for any line, the text before the word is empty or ends in a space |
| `LineEditor.NarrowWord` | src/main.rs:189-196 | the word before the cursor of a line whose characters are below 256 has characters below 256 |
| `LineEditor.Redraw` | src/main.rs:231-234 | the terminal shows the prompt and then the line, with the cursor `len - cursor` columns back, i.e. just after the cursor's character |
| `LineEditor.RunEnds` | src/main.rs:111-235 | the key loop keeps its invariant; a submitted line ends in `;`; the session ends only on an empty line; running out of keys means every key was read; only ArrowUp or ArrowDown can panic |
| `LineEditor.RunSameSearches` | src/main.rs:111-229 | the key loop sees the history only through its searches: two histories that search alike give the same run |
| `LineEditor.Run` | src/main.rs:111-229 | a run never reads more keys than it is given |
| `LineEditor.RunFrom` | src/main.rs:111-229 | a run on at least one key reads at least one key |
| `LineEditor.RunFirst` | src/main.rs:111-229 | a run is its first key followed, unless that key ends the loop, by the run of the remaining keys |
| `LineEditor.RunAt` | src/main.rs:111-229 | the run from the key at position `used` is that key's step followed, unless it ends the loop, by the run of the keys after it |
| `LineEditor.EditLine` | src/main.rs:102-235 | editing one line from key `pos` with a fresh editor reads as `Reads` says: the outcome, key count and line are those of `Run` from the fresh-line state of the current history; a submitted line ends in `;`, an ended session leaves an empty line, and running out of keys means every key was read |
| `LineEditor.ReadsByContents` | src/main.rs:102-235 | one line read from a given key on two well-formed histories with the same contents gives the same line, outcome and key count |
| `LineEditor.Classify` | src/main.rs:239-248 | a line is a quit exactly when it trims to `exit;` or `quit;`, and a clear exactly when it trims to `clear;`; any other line is run as its trimmed text |
| `LineEditor.ClassifyPadded` | src/main.rs:239 | whitespace around a line never changes how it is handled, and a statement that is run is classified the same when submitted again |
| `LineEditor.HandleSubmitted` | src/main.rs:239-250 | only a line that is run enters the history, under its trimmed text; quitting and clearing leave the history as it was |
| `LineEditor.SubmittedRunnable` | src/main.rs:239-250 | a statement taken from a submitted line is itself classified as a statement to run |
| `LineEditor.Executed` | src/main.rs:239-250 | every statement taken from the submitted lines is run as it stands: it is trimmed and neither a quit nor a clear |
| `LineEditor.Statement` | src/main.rs:239-250 | a line ending as submitted and neither a quit nor a clear yields its trimmed text, which is itself runnable; any other line yields nothing |
| `LineEditor.GroundedEach` | src/main.rs:98-250 | every pass of a session reads its line on a well-formed history trie |
| `LineEditor.InsertAll` | src/main.rs:250 | after the statements are inserted in turn, every earlier key path is still present and so is the key path of every statement |
| `LineEditor.InsertAllKeeps` | src/main.rs:250 | a statement is stored in the history after the session unless a later statement has the same key path |
| `LineEditor.ChainedEach` | src/main.rs:98-250 | every pass of a session reads, from where the earlier passes stopped, what a fresh line reads on the history their statements left |
| `LineEditor.ChainedSnoc` | src/main.rs:98-250 | a pass that starts where the session stopped, on the history it left, extends the session's chain of passes and adds its statement, if any, to those run |
| `LineEditor.AllGoOnEach` | src/main.rs:239-248 | every pass that let the session go on submitted a line that did not quit |
| `LineEditor.QuitEnds` | src/main.rs:240-242 | a submitted `exit;` or `quit;` is the session's last pass, and the session stops as quitted |
| `LineEditor.ExhaustedReadsAll` | src/main.rs:111-235 | a session that stops because the keys ran out has read every key |
| `LineEditor.Advance` | src/main.rs:98-250 | a pass either finishes the session, as its outcome says, or leaves it under way after its keys with its statement added |
| `LineEditor.GoesOnFurther` | src/main.rs:244-250 | a pass whose submitted line is not a quit leaves the session under way |
| `LineEditor.StopsHere` | src/main.rs:214-242 | a pass that is not submitted, or submits a quit, finishes the session |
| `LineEditor.SessionPass` | src/main.rs:98-250 | one pass of the session loop: the history stays well formed and holds the statements run so far, inserted in turn; the pass either finishes the session or leaves it under way further on |
| `LineEditor.Session` | src/main.rs:98-250 | the whole session as `Completed` states: each pass is a fresh line read from where the earlier passes stopped, on a well-formed history holding what the earlier statements left; every pass but the last submitted a line that did not quit; the last pass decides the end (a submitted line ends the session only as a quit, Ctrl-D on an empty line closes it, a panic crashes it, or the keys run out); `run` is the trimmed text of every submitted line that is neither a quit nor a clear, in order; the history is the old one with those statements inserted in turn, so each one's key path is stored. By `SessionDetermined`, this fixes `run` and `end` from the keys and the history's contents |
| `LineEditor.AgreeTotals` | src/main.rs:98-250 | two traces whose passes agree but for their history arenas read the same keys and run the same statements |
| `LineEditor.AgreeSnoc` | src/main.rs:98-250 | agreement on the first `n` passes and on pass `n` is agreement on the first `n + 1` |
| `LineEditor.PassAgrees` | src/main.rs:98-250 | where two chained sessions agree so far, their next passes agree |
| `LineEditor.ChainedAgree` | src/main.rs:98-250 | two chained sessions on the same keys and history contents agree pass by pass as far as both go |
| `LineEditor.LastStops` | src/main.rs:214-242 | the last pass of a finished session does not go on |
| `LineEditor.OutlivedAgree` | src/main.rs:98-250 | no finished session on the same keys and contents has more passes than another |
| `LineEditor.SessionDetermined` | src/main.rs:98-250 | the keys and the history's contents decide the session: any two finished sessions on them run the same statements and end the same way |
| `BoxTable.WidthIsMaximum` | src/formatter.rs:17-24 | a column's width is at least its header's length and every cell's length, and equals one of them |
| `BoxTable.ColumnWidths` | src/formatter.rs:17-24 | the array computed by the nested loops holds each column's maximum width |
| `BoxTable.PadLeft` | src/formatter.rs:41 | right alignment: the text is a suffix of the result, preceded only by spaces, and the result is as wide as the width or the text |
| `BoxTable.Repeat` | src/formatter.rs:29-31 | a run of `n` copies of the character |
| `BoxTable.BorderLine` | src/formatter.rs:27-36 | prints the border that `Border` describes: a corner, each column's `w + 2` horizontals with the joint between columns, a corner |
| `BoxTable.CellsLine` | src/formatter.rs:58-65 | prints the line that `CellLine` describes: a bar, then each cell right-aligned to its width and followed by a bar |
| `BoxTable.CellsOfRow` | src/formatter.rs:60-61 | a row's cells, in header order |
| `BoxTable.PrintRows` | src/formatter.rs:58-65 | prints one data line per row, in row order, each the line `CellLine` describes for that row's cells |
| `BoxTable.PrintTable` | src/formatter.rs:16-79 | prints exactly the lines `Render` describes |
| `BoxTable.RenderShape` | src/formatter.rs:27-78 | the output is the top border, the header line, the separator, one line per row in row order, the bottom border and a blank line, each as `Border` and `CellLine` describe it |
| `BoxTable.BorderLength` | src/formatter.rs:27-36 | a border's length counts each column's horizontals and one joint fewer than there are columns; with no columns there are no joints and no underflow |
| `BoxTable.CellsLength` | src/formatter.rs:39-43 | with every cell within its width, each column takes its width plus three characters |
| `BoxTable.LineLengths` | src/formatter.rs:17-77 | no cell is wider than its column, so every header and data line has length `2 + Σ(w + 3)`; every border has length `1 + Σ(w + 3)`, or 2 when there are no columns |
| `BoxTable.ResultSetPrintable` | src/formatter.rs:19-24 | a table built from rows that all carry the first row's column names has every header in every row, so the printer's lookups never fail |
| `Connector.TakeWord` | src/connector.rs:62 | the word is a whitespace-free prefix that ends at the text's end or at whitespace |
| `Connector.FirstWord` | src/connector.rs:62 | the first word contains no whitespace, and it is empty exactly when the statement is all whitespace |
| `Connector.UpperOf` | src/connector.rs:62 | a character's capitals are non-empty, and they begin with whitespace exactly when the character is whitespace |
| `Connector.Upper` | src/connector.rs:62 | upper-casing never shortens the text |
| `Connector.ChangesRows` | src/connector.rs:62-66 | a statement takes the rows-affected path exactly when its upper-cased first word starts with one of the keywords `INSERT`, `UPDATE`, `DELETE` |
| `Connector.LeadingWhitespaceIgnored` | src/connector.rs:62 | whitespace before the statement changes neither its first word nor its kind |
| `Connector.OnlyFirstWord` | src/connector.rs:62 | the word taken from a word followed by whitespace is that word |
| `Connector.FirstWordDecides` | src/connector.rs:62-66 | the first word of `a + w + rest` is `w`, so it alone decides the kind |
| `Connector.CaseInsensitive` | src/connector.rs:62-66 | statements that differ only in the case of ASCII letters have the same kind |
| `Connector.UpperUpToCase` | src/connector.rs:62 | texts that differ only in letter case have the same upper-cased form |
| `Connector.KeywordPrefixQualifies` | src/connector.rs:64-66 | a statement starting with INSERT, UPDATE or DELETE reports affected rows, whatever follows, so `INSERTX` qualifies too |
| `Connector.LowerKeywordQualifies` | src/connector.rs:62-66 | so do the keywords in lower case, e.g. `insertx` |
| `Connector.BlankStatementFetches` | src/connector.rs:62-76 | an empty or whitespace-only statement has the empty first word and fetches a table |
| `Connector.Decimal` | src/connector.rs:110 | the decimal form of a number is a non-empty string of digits |
| `Connector.DecimalRoundTrip` | src/connector.rs:110 | reading the decimal form back gives the number |
| `Connector.DebugBytes` | src/connector.rs:110 | the debug form of bytes is bracketed |
| `Connector.DebugBytesExamples` | src/connector.rs:110 | `[]`, `[1, 2]`, `[255]` |
| `Connector.HandleResult` | src/connector.rs:41-55 | a decoded value gives its text, SQL NULL gives `NULL`, a decoding error gives `ERR` |
| `Connector.ColumnText` | src/connector.rs:93-122 | an unknown type name gives `NULL` whatever the value; binary types give the bytes' debug form, `NULL` or `ERR`; the other known types give the value's text, `NULL` or `ERR` |
| `Connector.RowMapUpTo` | src/connector.rs:87-124 | the row's map has a key exactly for each column name seen |
| `Connector.RowMapLastWins` | src/connector.rs:123 | a name maps to the text of the last column carrying it: a later duplicate overwrites |
| `Connector.RowMapKeys` | src/connector.rs:88-124 | the map's keys are exactly the row's column names |
| `Connector.RowToMap` | src/connector.rs:88-124 | the loop builds the row's map, whose keys are exactly the column names |
| `Connector.ColumnNames` | src/connector.rs:80-84 | the header names are the row's column names, in order |
| `Connector.TableOf` | src/connector.rs:76-126 | the table has one map per fetched row |
| `Connector.TableOfRows` | src/connector.rs:76-126 | no rows give the empty table; otherwise the headers are the first row's column names in order, and each row's map holds each column's text under its name, the last duplicate winning |
| `Connector.BuildTable` | src/connector.rs:76-126 | the loop builds the table `TableOf` describes: headers from the first row, one map per row in order |
| `Connector.ParseQuery` | src/connector.rs:58-129 | a statement whose first word starts with a keyword reports its affected rows or its error; any other statement gives the table of its fetched rows or its error |

## Left out

- Terminal and process I/O are not modelled: printing, `read_key`, `term.size`,
  clearing the screen, `println!` and the error messages. The redraw is the
  pure value `Redraw`, and keys arrive as a finite sequence, so a session ends
  when its keys run out.
- Argument parsing, the password prompt, connecting and the `-e` path
  (src/main.rs:20-71, 271-287) are not modelled.
- Running a statement and printing its result or timing (src/main.rs:251-268)
  are not modelled. `Session` returns the statements it would run.
- Loading and saving the history file are not modelled, and neither is loading
  the symbols. `Trie::from_file`, `save` and `from_vec` are not part of this
  model: src/trie.rs does not define them. `get_symbols` (src/connector.rs:32-39)
  is database I/O. The editor takes both tries as given.
- The per-node collector `search` is called by `search_all` but not defined in
  src/trie.rs, so it is not part of this model's sources. `Collect` stands for
  it:
  - it visits the node's own word, then the occupied slots in slot order;
  - the membership facts proved about searches do not depend on that order;
  - which candidate ArrowUp recalls first does depend on it.
- Characters are Unicode scalar values. The source uses byte offsets for
  `insert`, `remove`, slicing and `len`, while the cursor counts keys. The
  model counts characters, which matches the source for ASCII lines and
  cells. For other text the source can panic on a non-boundary offset, and
  that is not modelled.
- Rust's `to_uppercase` maps some non-ASCII letters to non-ASCII capitals.
  `UpperOf` keeps those letters unchanged. This gives the same answer for
  every test against the ASCII keywords.
- `Connector.Value`: the `to_string` of strings, floats, dates, times and JSON
  values is opaque. Such a value carries its text. Booleans, integers and
  byte vectors are formatted in the model.
- Which Rust type each type name decodes to, and whether decoding succeeds,
  is part of the abstracted database answer `TryGet`.
- `ParseQuery`: the affected-row count is an unbounded natural, not a `u64`.
- `sqlx`, `async`, `Arc<Mutex<…>>` and the connection handle are not
  modelled.
- `print_table` takes a `MySqlQueryResult`, a type the source does not
  define. The model takes the `MySqlTable` that `parse_query` builds.
- src/ui.rs is not part of this model. The program does not declare it as a
  module, and it calls a `Query` interface that src/query.rs does not have.
- The editor does not use `Query` (src/main.rs:109 creates one and never uses
  it). The model keeps the two apart.
