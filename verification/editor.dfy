/**
 * The interactive line editor of the shell (the key loop of
 * `run_mysql_session`, src/main.rs): one key at a time it edits the input
 * line, recalls earlier statements from the command trie and completes
 * database symbols from the symbol trie. Terminal reads become a sequence of
 * keys; the terminal writes become the pure value `Redraw`.
 */
module LineEditor {
  import opened Common
  import opened PrefixTrie

  const PROMPT := "oxisql> "

  /** The character Ctrl-D delivers. */
  const CTRL_D := '\U{4}'

  /** The keys the loop distinguishes; `Other` stands for every key it only reports. */
  datatype KeyPress = Backspace | Enter | ArrowUp | ArrowDown | ArrowLeft | ArrowRight | Tab
                    | Char(c: char) | Other

  /**
   * What a key does to the loop: keep reading, submit the line (Enter after
   * `;`), end the session (Ctrl-D on an empty line), or stop the program
   * (an index below zero or past the end).
   */
  datatype Outcome = Continue | Submit | EndSession | Panic

  /** The loop's variables. `commandOffset` counts back from the end of `commands`. */
  datatype EditState = EditState(input: string, cursor: nat, commandOffset: nat, commands: seq<string>,
                                 lastMatchedWord: string, matchIndex: nat)

  /** The word Tab completes: the longest run of non-space characters ending at `s`'s end. */
  function CurrentWord(s: string): (word: string)
    ensures IsSuffixOf(word, s)
    ensures forall i :: 0 <= i < |word| ==> word[i] != ' '
    ensures |word| == |s| || s[|s| - |word| - 1] == ' '
  {
    if s == [] || s[|s| - 1] == ' ' then []
    else
      var w := CurrentWord(s[..|s| - 1]);
      SuffixSnoc(s, w);
      w + [s[|s| - 1]]
  }

  /** A suffix of all but the last element, extended by the last element, is a suffix. */
  lemma SuffixSnoc<T>(s: seq<T>, w: seq<T>)
    requires s != [] && IsSuffixOf(w, s[..|s| - 1])
    ensures IsSuffixOf(w + [s[|s| - 1]], s)
  {
    assert s[|s| - |w| - 1..] == s[..|s| - 1][|s| - 1 - |w|..] + [s[|s| - 1]];
  }

  /** The state at the start of every input line. */
  ghost function FreshLine(history: TrieState): (s: EditState)
    requires Sound(history)
    ensures s.input == [] && s.cursor == 0 && s.commandOffset == 0 && s.matchIndex == 0
    ensures forall w :: w in s.commands <==> Stores(history.contents, w)
  {
    SearchAllStored(history);
    EditState("", 0, 0, Lookup(history, ""), "", 0)
  }

  /** The empty prefix matches every stored word. */
  lemma SearchAllStored(t: TrieState)
    requires Sound(t)
    ensures forall w :: w in Lookup(t, "") <==> Stores(t.contents, w)
  {
    forall w ensures w in Lookup(t, "") <==> Stores(t.contents, w) {
      assert w in Lookup(t, "") <==> Matches(t.contents, "", w);
    }
  }

  /** Shows the history entry `commandOffset` places from the end, unless it is empty. */
  function Recall(s: EditState): EditState
    requires 0 < s.commandOffset <= |s.commands|
  {
    var found := s.commands[|s.commands| - s.commandOffset];
    if |found| > 0 then s.(input := found, cursor := |found|) else s
  }

  /** Backspace: erase before the cursor, if anything is there, and search the history again. */
  ghost function BackspaceKey(s: EditState, history: TrieState): (r: (EditState, Outcome))
    requires s.cursor <= |s.input|
    ensures r.1 == Continue && r.0.cursor <= |r.0.input|
    ensures |r.0.input| == if s.cursor > 0 then |s.input| - 1 else |s.input|
    ensures r.0.commandOffset == s.commandOffset && r.0.commands == Lookup(history, r.0.input)
  {
    var input := if s.cursor > 0 then s.input[..s.cursor - 1] + s.input[s.cursor..] else s.input;
    var cursor := if s.cursor > 0 then s.cursor - 1 else 0;
    (s.(input := input, cursor := cursor, commands := Lookup(history, input)), Continue)
  }

  /** ArrowUp: one candidate further back, stopping at the oldest; an offset already past the list panics. */
  function UpKey(s: EditState): (r: (EditState, Outcome))
    ensures r.1 == Continue || r.1 == Panic
    ensures r.1 == Panic <==> 0 < |s.commands| < s.commandOffset
    ensures r.0.commands == s.commands
  {
    if |s.commands| == 0 then (s, Continue)
    else
      var offset := if s.commandOffset != |s.commands| then s.commandOffset + 1 else s.commandOffset;
      if offset > |s.commands| then (s.(commandOffset := offset), Panic)
      else (Recall(s.(commandOffset := offset)), Continue)
  }

  /** ArrowDown: one candidate forward; back at offset 0 the line is emptied and the full history recalled. */
  ghost function DownKey(s: EditState, history: TrieState): (r: (EditState, Outcome))
    ensures r.1 == Continue || r.1 == Panic
    ensures r.1 == Panic <==> 0 < |s.commands| && |s.commands| + 1 < s.commandOffset
    ensures r.0.commands == s.commands || (r.0.commandOffset == 0 && r.0.input == [] && r.0.commands == Lookup(history, ""))
  {
    if |s.commands| == 0 then (s, Continue)
    else
      var offset := if s.commandOffset >= 1 then s.commandOffset - 1 else s.commandOffset;
      if offset == 0 then (s.(commandOffset := 0, input := "", cursor := 0, commands := Lookup(history, "")), Continue)
      else if offset > |s.commands| then (s.(commandOffset := offset), Panic)
      else (Recall(s.(commandOffset := offset)), Continue)
  }

  /**
   * Tab: a word seen for the first time only selects the first match; the
   * same word again is replaced, with the rest of the line, by the current
   * match, and the index moves on to the next match.
   */
  ghost function TabKey(s: EditState, symbols: TrieState): (r: (EditState, Outcome))
    requires s.cursor <= |s.input|
    ensures r.1 == Continue || r.1 == Panic
    ensures r.0.cursor == s.cursor && r.0.commands == s.commands && r.0.commandOffset == s.commandOffset
    ensures r.0 != s ==> r.0.lastMatchedWord == CurrentWord(s.input[..s.cursor])
  {
    var word := CurrentWord(s.input[..s.cursor]);
    var valid := Lookup(symbols, word);
    if |valid| == 0 then (s, Continue)
    else if s.lastMatchedWord == word then
      if s.matchIndex >= |valid| then (s, Panic)
      else
        (s.(input := s.input[..s.cursor - |word|] + valid[s.matchIndex],
            matchIndex := (s.matchIndex + 1) % |valid|,
            lastMatchedWord := word), Continue)
    else (s.(matchIndex := 0, lastMatchedWord := word), Continue)
  }

  /** A character: Ctrl-D closes an empty line; anything else is inserted at the cursor. */
  ghost function CharKey(s: EditState, c: char, history: TrieState): (r: (EditState, Outcome))
    requires s.cursor <= |s.input|
    ensures r.1 == EndSession <==> c == CTRL_D && s.input == []
    ensures r.1 == Continue || r.1 == EndSession
    ensures c != CTRL_D ==> && r.0.cursor == s.cursor + 1 && |r.0.input| == |s.input| + 1
                            && r.0.input[s.cursor] == c && r.0.commandOffset == 0
  {
    if c == CTRL_D then (s, if |s.input| == 0 then EndSession else Continue)
    else
      var input := s.input[..s.cursor] + [c] + s.input[s.cursor..];
      (s.(input := input, cursor := s.cursor + 1, commands := Lookup(history, input), commandOffset := 0), Continue)
  }

  /** The effect of one key on the loop's state: the body of the key `match`. */
  ghost function Next(s: EditState, key: KeyPress, history: TrieState, symbols: TrieState): (r: (EditState, Outcome))
    requires s.cursor <= |s.input|
    ensures r.1 == Submit ==> key == Enter
    ensures r.1 == EndSession ==> key == Char(CTRL_D)
    ensures r.1 == Panic ==> key == ArrowUp || key == ArrowDown || key == Tab
    ensures r.0.commands != s.commands ==> key == Backspace || key == ArrowDown || key.Char?
  {
    match key
    case Backspace => BackspaceKey(s, history)
    case Enter => (s, if s.input != [] && s.input[|s.input| - 1] == ';' then Submit else Continue)
    case ArrowUp => UpKey(s)
    case ArrowDown => DownKey(s, history)
    case ArrowLeft => (s.(cursor := if s.cursor > 0 then s.cursor - 1 else 0), Continue)
    case ArrowRight => (s.(cursor := if s.cursor < |s.input| then s.cursor + 1 else |s.input|), Continue)
    case Tab => TabKey(s, symbols)
    case Char(c) => CharKey(s, c, history)
    case Other => (s, Continue)
  }

  /** The state invariant of the loop: the cursor is on the line and the completion index names a match. */
  ghost predicate Inv(s: EditState, symbols: TrieState)
  {
    && s.cursor <= |s.input|
    && (s.matchIndex == 0 || s.matchIndex < |Lookup(symbols, s.lastMatchedWord)|)
  }

  /** A symbol offered for `word` is at least as long as `word`. */
  lemma CompletionNotShorter(symbols: TrieState, word: string, i: nat)
    requires Sound(symbols) && i < |Lookup(symbols, word)|
    ensures |word| <= |Lookup(symbols, word)[i]|
  {
    var sym := Lookup(symbols, word)[i];
    assert Matches(symbols.contents, word, sym);
  }

  /**
   * Every key keeps the cursor on the line, so the redraw's `input.len() -
   * cursor` never goes below zero, and keeps the completion index in range,
   * so Tab never indexes past its matches.
   */
  lemma NextKeepsInv(s: EditState, key: KeyPress, history: TrieState, symbols: TrieState)
    requires Sound(symbols) && Inv(s, symbols)
    ensures Inv(Next(s, key, history, symbols).0, symbols)
    ensures key == Tab ==> Next(s, key, history, symbols).1 != Panic
  {
    var next := Next(s, key, history, symbols).0;
    if key == Tab {
      var word := CurrentWord(s.input[..s.cursor]);
      var valid := Lookup(symbols, word);
      if |valid| > 0 && s.lastMatchedWord == word {
        CompletionNotShorter(symbols, word, s.matchIndex);
      }
    } else {
      assert next.lastMatchedWord == s.lastMatchedWord && next.matchIndex == s.matchIndex;
      assert next.cursor <= |next.input|;
    }
  }

  /**
   * History recall stays in range: while the offset is within the candidate
   * list, no key but Backspace can panic or take the offset past the list.
   * Backspace replaces the list and keeps the offset, so only it can.
   */
  lemma HistoryOffsetInRange(s: EditState, key: KeyPress, history: TrieState, symbols: TrieState)
    requires Sound(symbols) && Inv(s, symbols)
    requires s.commandOffset <= |s.commands| && key != Backspace
    ensures Next(s, key, history, symbols).1 != Panic
    ensures Next(s, key, history, symbols).0.commandOffset <= |Next(s, key, history, symbols).0.commands|
  {
    NextKeepsInv(s, key, history, symbols);
  }

  /**
   * Backspace searches the history again but keeps the offset, so the new
   * candidate list can be shorter than the offset; ArrowUp then indexes
   * below the start of the list and panics.
   */
  lemma BackspaceStrandsOffset(s: EditState, history: TrieState)
    requires s.cursor <= |s.input|
    requires 0 < |BackspaceKey(s, history).0.commands| < s.commandOffset
    ensures BackspaceKey(s, history).0.commandOffset == s.commandOffset
    ensures UpKey(BackspaceKey(s, history).0).1 == Panic
  {
  }

  /** After typing or erasing, every recalled candidate starts with the input line (under `c as u8`). */
  lemma CandidatesMatchInput(s: EditState, key: KeyPress, history: TrieState, symbols: TrieState)
    requires Sound(history) && s.cursor <= |s.input|
    requires key == Backspace || (key.Char? && key.c != CTRL_D)
    ensures var s' := Next(s, key, history, symbols).0;
            forall w :: w in s'.commands <==> Matches(history.contents, s'.input, w)
  {
  }

  /** Typing a character and erasing it restores the line and the cursor. */
  lemma CharThenBackspace(s: EditState, c: char, history: TrieState)
    requires s.cursor <= |s.input| && c != CTRL_D
    ensures var s1 := CharKey(s, c, history).0;
            var s2 := BackspaceKey(s1, history).0;
            s2.input == s.input && s2.cursor == s.cursor && s2.commands == Lookup(history, s.input)
  {
    var s1 := CharKey(s, c, history).0;
    assert s1.input[..s1.cursor - 1] == s.input[..s.cursor];
    assert s1.input[s1.cursor..] == s.input[s.cursor..];
    assert s.input[..s.cursor] + s.input[s.cursor..] == s.input;
  }

  /** Left then Right returns the cursor where it was, away from the start; neither touches the line. */
  lemma LeftThenRight(s: EditState, history: TrieState, symbols: TrieState)
    requires 0 < s.cursor <= |s.input|
    ensures var s1 := Next(s, ArrowLeft, history, symbols).0;
            var s2 := Next(s1, ArrowRight, history, symbols).0;
            s1.input == s2.input == s.input && s2.cursor == s.cursor && s1.cursor == s.cursor - 1
  {
  }

  /** The word before the cursor is unaffected by what precedes the space before it. */
  lemma {:induction false} CurrentWordAfterBreak(p: string, w: string)
    requires p == [] || p[|p| - 1] == ' '
    requires forall i :: 0 <= i < |w| ==> w[i] != ' '
    ensures CurrentWord(p + w) == w
    decreases |w|
  {
    if w == [] {
      assert p + w == p;
    } else {
      var w' := w[..|w| - 1];
      assert (p + w)[..|p + w| - 1] == p + w';
      CurrentWordAfterBreak(p, w');
      assert w' + [w[|w| - 1]] == w;
    }
  }

  /**
   * Completing `word` (preceded by `p`, which is empty or ends in a space) with
   * a symbol whose key path extends the word's leaves the same word before
   * the unmoved cursor, for characters below 256.
   */
  lemma CompletionKeepsWord(p: string, word: string, sym: string)
    requires p == [] || p[|p| - 1] == ' '
    requires forall i :: 0 <= i < |word| ==> word[i] != ' '
    requires Narrow(word) && Narrow(sym) && IsPrefix(KeyPath(word), KeyPath(sym))
    ensures |p| + |word| <= |p + sym| && CurrentWord((p + sym)[..|p| + |word|]) == word
  {
    NarrowKeyPrefix(word, sym);
    assert (p + sym)[..|p| + |word|] == p + word;
    CurrentWordAfterBreak(p, word);
  }

  /**
   * Tab cycles: once a completion is inserted, the word before the cursor is
   * the same word again (for characters below 256, where key paths are the
   * characters), so the next Tab inserts the next match in place of it.
   */
  lemma TabCycles(s: EditState, symbols: TrieState)
    requires Sound(symbols) && Inv(s, symbols)
    requires s.lastMatchedWord == CurrentWord(s.input[..s.cursor])
    requires Lookup(symbols, s.lastMatchedWord) != []
    requires Narrow(s.input)
    requires forall i :: 0 <= i < |Lookup(symbols, s.lastMatchedWord)| ==> Narrow(Lookup(symbols, s.lastMatchedWord)[i])
    ensures var s1 := TabKey(s, symbols).0;
            var valid := Lookup(symbols, s.lastMatchedWord);
            && s1.cursor == s.cursor
            && s1.input == s.input[..s.cursor - |s.lastMatchedWord|] + valid[s.matchIndex]
            && s1.matchIndex == (s.matchIndex + 1) % |valid|
            && s1.cursor <= |s1.input|
            && CurrentWord(s1.input[..s1.cursor]) == s.lastMatchedWord
  {
    var word := s.lastMatchedWord;
    var valid := Lookup(symbols, word);
    var sym := valid[s.matchIndex];
    TabAgain(s, symbols);
    CompletionExtends(symbols, word, s.matchIndex);
    InsertKeepsWord(s.input, s.cursor, word, sym);
    var s1 := TabKey(s, symbols).0;
    assert s1.input == s.input[..s.cursor - |word|] + sym && s1.cursor == s.cursor;
  }

  /** Putting a completion of the word before the cursor in place of the word leaves the same word there. */
  lemma InsertKeepsWord(input: string, cursor: nat, word: string, sym: string)
    requires cursor <= |input| && word == CurrentWord(input[..cursor])
    requires Narrow(input) && Narrow(sym) && IsPrefix(KeyPath(word), KeyPath(sym))
    ensures |word| <= cursor
    ensures var line := input[..cursor - |word|] + sym;
            cursor <= |line| && CurrentWord(line[..cursor]) == word
  {
    WordBeforeCursor(input, cursor);
    NarrowWord(input, cursor);
    CompletionKeepsWord(input[..cursor - |word|], word, sym);
  }

  /** Tab on the word matched last time inserts the current match in place of the word. */
  lemma TabAgain(s: EditState, symbols: TrieState)
    requires s.cursor <= |s.input| && s.lastMatchedWord == CurrentWord(s.input[..s.cursor])
    requires s.matchIndex < |Lookup(symbols, s.lastMatchedWord)|
    ensures var valid := Lookup(symbols, s.lastMatchedWord);
            TabKey(s, symbols).0
              == s.(input := s.input[..s.cursor - |s.lastMatchedWord|] + valid[s.matchIndex],
                    matchIndex := (s.matchIndex + 1) % |valid|)
  {
  }

  /** A symbol offered for `word` is stored and its key path extends the word's. */
  lemma CompletionExtends(symbols: TrieState, word: string, i: nat)
    requires Sound(symbols) && i < |Lookup(symbols, word)|
    ensures IsPrefix(KeyPath(word), KeyPath(Lookup(symbols, word)[i]))
  {
    assert Matches(symbols.contents, word, Lookup(symbols, word)[i]);
  }

  /** The text before the cursor is the text before the word, empty or ending in a space, and the word. */
  lemma WordBeforeCursor(input: string, cursor: nat)
    requires cursor <= |input|
    ensures var word := CurrentWord(input[..cursor]);
            var p := input[..cursor - |word|];
            p == [] || p[|p| - 1] == ' '
  {
    var word := CurrentWord(input[..cursor]);
    var p := input[..cursor - |word|];
    if p != [] {
      assert p[|p| - 1] == input[..cursor][cursor - |word| - 1];
    }
  }

  /** The word before the cursor of a line with characters below 256 has characters below 256. */
  lemma NarrowWord(input: string, cursor: nat)
    requires cursor <= |input| && Narrow(input)
    ensures Narrow(CurrentWord(input[..cursor]))
  {
    var word := CurrentWord(input[..cursor]);
    assert word == input[..cursor][cursor - |word|..];
    forall i | 0 <= i < |word|
      ensures (word[i] as int) < TRIE_SIZE
    {
      assert word[i] == input[cursor - |word| + i];
    }
  }

  /** What the terminal shows after a key: the prompt and the line, with the cursor moved back from the end. */
  function Redraw(s: EditState): (r: (string, nat))
    requires s.cursor <= |s.input|
    ensures IsPrefix(PROMPT, r.0) && r.0[|PROMPT|..] == s.input
    ensures |r.0| - r.1 == |PROMPT| + s.cursor
  {
    (PROMPT + s.input, |s.input| - s.cursor)
  }

  /**
   * Reading keys until one ends the loop: the final state, the outcome of the
   * last key read (`Continue` when the keys ran out) and how many keys were read.
   */
  ghost function Run(s: EditState, keys: seq<KeyPress>, history: TrieState, symbols: TrieState): (r: (EditState, Outcome, nat))
    requires Sound(symbols) && Inv(s, symbols)
    ensures r.2 <= |keys|
    decreases |keys|, 1
  {
    if keys == [] then (s, Continue, 0) else RunFrom(s, keys, history, symbols)
  }

  /** A run on at least one key: the first key's step, then, unless it ends the run, the run of the rest. */
  ghost function RunFrom(s: EditState, keys: seq<KeyPress>, history: TrieState, symbols: TrieState): (r: (EditState, Outcome, nat))
    requires Sound(symbols) && Inv(s, symbols) && keys != []
    ensures 0 < r.2 <= |keys|
    decreases |keys|, 0
  {
    NextKeepsInv(s, keys[0], history, symbols);
    var step := Next(s, keys[0], history, symbols);
    if step.1 != Continue then (step.0, step.1, 1)
    else Shift(Run(step.0, keys[1..], history, symbols), 1)
  }

  /**
   * The line loop ends with a submitted line that ends in `;`, or with the
   * session closed on an empty line, or with all keys read; the invariant holds
   * throughout, and Tab never panics.
   */
  lemma {:induction false} RunEnds(s: EditState, keys: seq<KeyPress>, history: TrieState, symbols: TrieState)
    requires Sound(symbols) && Inv(s, symbols)
    ensures var (s', o, n) := Run(s, keys, history, symbols);
            && Inv(s', symbols)
            && (o == Submit ==> s'.input != [] && s'.input[|s'.input| - 1] == ';')
            && (o == EndSession ==> s'.input == [])
            && (o == Continue ==> n == |keys|)
            && (o != Continue ==> n > 0 && (o == Panic ==> keys[n - 1] in {ArrowUp, ArrowDown}))
    decreases |keys|
  {
    if keys != [] {
      NextOutcome(s, keys[0], history, symbols);
      RunFirst(s, keys, history, symbols);
      var (s', o) := Next(s, keys[0], history, symbols);
      if o == Continue {
        RunEnds(s', keys[1..], history, symbols);
      }
    }
  }

  /**
   * One key ends the line only as the loop's exits say: a submitted line ends
   * in `;`, a closed session has an empty line, and only the arrow keys panic.
   */
  lemma NextOutcome(s: EditState, key: KeyPress, history: TrieState, symbols: TrieState)
    requires Sound(symbols) && Inv(s, symbols)
    ensures var (s', o) := Next(s, key, history, symbols);
            && Inv(s', symbols)
            && (o == Submit ==> s'.input != [] && s'.input[|s'.input| - 1] == ';')
            && (o == EndSession ==> s'.input == [])
            && (o == Panic ==> key in {ArrowUp, ArrowDown})
  {
    NextKeepsInv(s, key, history, symbols);
  }

  /** The loop's variables as fields, and the two tries it consults. */
  class Editor {
    var input: string
    var cursor: nat
    var commandOffset: nat
    var commands: seq<string>
    var lastMatchedWord: string
    var matchIndex: nat
    const commandTrie: Trie
    const symbolsTrie: Trie
    /** The two tries' contents, which the editor only reads. */
    ghost const historyState: TrieState
    ghost const symbolState: TrieState

    ghost function State(): EditState
      reads this
    {
      EditState(input, cursor, commandOffset, commands, lastMatchedWord, matchIndex)
    }

    /** The tries are in the states the editor recorded, and those states are well formed. */
    ghost predicate TriesHeld()
      reads commandTrie, symbolsTrie
    {
      && commandTrie.Snapshot() == historyState && symbolsTrie.Snapshot() == symbolState
      && Good(historyState) && Good(symbolState) && Sound(historyState) && Sound(symbolState)
    }

    ghost predicate Valid()
      reads this, commandTrie, symbolsTrie
    {
      TriesHeld() && Inv(State(), symbolState)
    }

    /** A fresh input line: empty, cursor at 0, every stored statement a recall candidate. */
    constructor (history: Trie, symbols: Trie)
      requires history.Valid() && symbols.Valid()
      ensures commandTrie == history && symbolsTrie == symbols
      ensures historyState == history.Snapshot() && symbolState == symbols.Snapshot()
      ensures Valid() && State() == FreshLine(historyState)
    {
      GoodSound(history.Snapshot());
      GoodSound(symbols.Snapshot());
      var candidates := history.SearchAll("");
      commandTrie := history;
      symbolsTrie := symbols;
      historyState := history.Snapshot();
      symbolState := symbols.Snapshot();
      input := "";
      cursor := 0;
      commandOffset := 0;
      commands := candidates;
      lastMatchedWord := "";
      matchIndex := 0;
    }

    /** One pass of the key loop for `key`: the `match` on the key read. */
    method Step(key: KeyPress) returns (outcome: Outcome)
      requires Valid()
      modifies this
      ensures Valid()
      ensures (State(), outcome) == Next(old(State()), key, historyState, symbolState)
      ensures key == Tab ==> outcome != Panic
    {
      NextKeepsInv(State(), key, historyState, symbolState);
      match key {
        case Backspace => outcome := DoBackspace();
        case Enter => outcome := if input != [] && input[|input| - 1] == ';' then Submit else Continue;
        case ArrowUp => outcome := DoArrowUp();
        case ArrowDown => outcome := DoArrowDown();
        case ArrowLeft =>
          cursor := if cursor > 0 then cursor - 1 else 0;
          outcome := Continue;
        case ArrowRight =>
          cursor := if cursor < |input| then cursor + 1 else |input|;
          outcome := Continue;
        case Tab => outcome := DoTab();
        case Char(c) => outcome := DoChar(c);
        case Other => outcome := Continue;
      }
    }

    /** The Backspace arm. */
    method DoBackspace() returns (outcome: Outcome)
      requires Valid()
      modifies this
      ensures (State(), outcome) == BackspaceKey(old(State()), historyState)
    {
      if cursor > 0 {
        cursor := cursor - 1;
        input := input[..cursor] + input[cursor + 1..];
      }
      commands := commandTrie.SearchAll(input);
      assert commands == Lookup(historyState, input);
      outcome := Continue;
    }

    /** Shows the candidate `commandOffset` places from the end, unless it is empty. */
    method ShowRecalled()
      requires 0 < commandOffset <= |commands|
      modifies this
      ensures State() == Recall(old(State()))
    {
      var found := commands[|commands| - commandOffset];
      if |found| > 0 {
        input := found;
        cursor := |input|;
      }
    }

    /** The ArrowUp arm. */
    method DoArrowUp() returns (outcome: Outcome)
      requires Valid()
      modifies this
      ensures (State(), outcome) == UpKey(old(State()))
    {
      outcome := Continue;
      if |commands| == 0 {
        return;
      }
      if commandOffset != |commands| {
        commandOffset := commandOffset + 1;
      }
      if commandOffset > |commands| {
        outcome := Panic;
      } else {
        ShowRecalled();
      }
    }

    /** The ArrowDown arm. */
    method DoArrowDown() returns (outcome: Outcome)
      requires Valid()
      modifies this
      ensures (State(), outcome) == DownKey(old(State()), historyState)
    {
      outcome := Continue;
      if |commands| == 0 {
        return;
      }
      if commandOffset >= 1 {
        commandOffset := commandOffset - 1;
      }
      if commandOffset == 0 {
        input := "";
        cursor := 0;
        commands := commandTrie.SearchAll(input);
        assert commands == Lookup(historyState, input);
      } else if commandOffset > |commands| {
        outcome := Panic;
      } else {
        ShowRecalled();
      }
    }

    /** The Tab arm. */
    method DoTab() returns (outcome: Outcome)
      requires Valid()
      modifies this
      ensures (State(), outcome) == TabKey(old(State()), symbolState)
    {
      outcome := Continue;
      var word := CurrentWord(input[..cursor]);
      var validSymbols := symbolsTrie.SearchAll(word);
      assert validSymbols == Lookup(symbolState, word);
      if |validSymbols| == 0 {
        return;
      }
      if lastMatchedWord == word {
        input := input[..cursor - |word|] + validSymbols[matchIndex];
        matchIndex := (matchIndex + 1) % |validSymbols|;
      } else {
        matchIndex := 0;
      }
      lastMatchedWord := word;
    }

    /** The arms for a character. */
    method DoChar(c: char) returns (outcome: Outcome)
      requires Valid()
      modifies this
      ensures (State(), outcome) == CharKey(old(State()), c, historyState)
    {
      outcome := Continue;
      if c == CTRL_D {
        if |input| == 0 {
          outcome := EndSession;
        }
        return;
      }
      input := input[..cursor] + [c] + input[cursor..];
      cursor := cursor + 1;
      commands := commandTrie.SearchAll(input);
      assert commands == Lookup(historyState, input);
      commandOffset := 0;
    }

    /**
     * The key loop: reads keys from `keys` until one submits the line, ends
     * the session or panics, or the keys run out.
     */
    method ReadLine(keys: seq<KeyPress>) returns (outcome: Outcome, used: nat)
      requires Valid()
      modifies this
      ensures Valid()
      ensures (State(), outcome, used) == Run(old(State()), keys, historyState, symbolState)
    {
      ghost var target := Run(State(), keys, historyState, symbolState);
      used := 0;
      outcome := Continue;
      assert keys[used..] == keys;
      while used < |keys|
        invariant Valid() && used <= |keys| && outcome == Continue
        invariant target == Shift(Run(State(), keys[used..], historyState, symbolState), used)
      {
        outcome := ReadKey(keys, used, target);
        used := used + 1;
        if outcome != Continue {
          return;
        }
      }
      assert keys[used..] == [];
      assert target == (State(), outcome, used);
    }

    /**
     * One pass of the key loop on the key at `used`, where `target` is the run
     * the loop is carrying out: the key either ends that run here or leaves the
     * rest of it to the following keys.
     */
    method ReadKey(keys: seq<KeyPress>, used: nat, ghost target: (EditState, Outcome, nat)) returns (outcome: Outcome)
      requires Valid() && used < |keys|
      requires target == Shift(Run(State(), keys[used..], historyState, symbolState), used)
      modifies this
      ensures Valid()
      ensures outcome != Continue ==> target == (State(), outcome, used + 1)
      ensures outcome == Continue ==> target == Shift(Run(State(), keys[used + 1..], historyState, symbolState), used + 1)
    {
      ghost var cs, ss := historyState, symbolState;
      ghost var rest := Run(State(), keys[used..], cs, ss);
      RunAt(State(), keys, used, cs, ss);
      outcome := Step(keys[used]);
      if outcome != Continue {
        assert rest == (State(), outcome, 1);
      } else {
        ghost var next := Run(State(), keys[used + 1..], cs, ss);
        assert rest == Shift(next, 1);
        ShiftTwice(next, 1, used);
      }
    }
  }

  /** A run result with `k` more keys counted as read. */
  function Shift(r: (EditState, Outcome, nat), k: nat): (EditState, Outcome, nat) {
    (r.0, r.1, r.2 + k)
  }

  lemma ShiftTwice(r: (EditState, Outcome, nat), j: nat, k: nat)
    ensures Shift(Shift(r, j), k) == Shift(r, j + k)
  {
  }

  /** One key of a run: it ends the run unless it continues, and then the rest of the run follows. */
  lemma RunFirst(s: EditState, keys: seq<KeyPress>, history: TrieState, symbols: TrieState)
    requires Sound(symbols) && Inv(s, symbols) && keys != []
    ensures Inv(Next(s, keys[0], history, symbols).0, symbols)
    ensures var step := Next(s, keys[0], history, symbols);
            Run(s, keys, history, symbols)
              == if step.1 != Continue then (step.0, step.1, 1) else Shift(Run(step.0, keys[1..], history, symbols), 1)
  {
    NextKeepsInv(s, keys[0], history, symbols);
  }

  /** `RunFirst` for the keys from `used` on. */
  lemma RunAt(s: EditState, keys: seq<KeyPress>, used: nat, history: TrieState, symbols: TrieState)
    requires Sound(symbols) && Inv(s, symbols) && used < |keys|
    ensures Inv(Next(s, keys[used], history, symbols).0, symbols)
    ensures var step := Next(s, keys[used], history, symbols);
            Run(s, keys[used..], history, symbols)
              == if step.1 != Continue then (step.0, step.1, 1) else Shift(Run(step.0, keys[used + 1..], history, symbols), 1)
  {
    var rest := keys[used..];
    assert rest[0] == keys[used] && rest[1..] == keys[used + 1..];
    RunFirst(s, rest, history, symbols);
  }

  /** How a submitted line is handled once trimmed. */
  datatype Submitted = Quit | ClearScreen | Execute(statement: string)

  /** `exit;` and `quit;` end the session, `clear;` clears the screen, anything else is run. */
  function Classify(line: string): (r: Submitted)
    ensures r == Quit <==> Trim(line) == "exit;" || Trim(line) == "quit;"
    ensures r == ClearScreen <==> Trim(line) == "clear;"
    ensures r.Execute? ==> r.statement == Trim(line)
  {
    var t := Trim(line);
    if t == "exit;" || t == "quit;" then Quit
    else if t == "clear;" then ClearScreen
    else Execute(t)
  }

  /** Whitespace around a submitted line never changes how it is handled, and a statement run is run as itself. */
  lemma ClassifyPadded(a: string, line: string, b: string)
    requires AllWhitespace(a) && AllWhitespace(b)
    ensures Classify(a + line + b) == Classify(line)
    ensures Classify(line).Execute? ==> Classify(Classify(line).statement) == Classify(line)
  {
    TrimPadded(a, line, b);
    TrimIdempotent(line);
  }

  /**
   * The handling after Enter (src/main.rs:239-250): only a line that is run
   * is added to the command history.
   */
  method HandleSubmitted(history: Trie, line: string) returns (r: Submitted)
    requires history.Valid()
    modifies history
    ensures history.Valid() && r == Classify(line)
    ensures r.Execute? ==> history.Contents == old(history.Contents)[KeyPath(r.statement) := r.statement]
    ensures !r.Execute? ==> history.Contents == old(history.Contents)
  {
    r := Classify(line);
    if r.Execute? {
      history.Insert(r.statement);
    }
  }

  /**
   * One input line of the session: a fresh editor reads keys from `keys`
   * until the line is submitted, the session is closed, the program stops or
   * the keys run out; the line is what the editor holds then.
   */
  method EditLine(history: Trie, symbols: Trie, keys: seq<KeyPress>, pos: nat) returns (outcome: Outcome, used: nat, line: string)
    requires history.Valid() && symbols.Valid() && pos <= |keys|
    ensures Reads(Attempt(history.Snapshot(), pos, outcome, used, line), symbols.Snapshot(), keys)
    ensures pos + used <= |keys| && (outcome == Continue ==> pos + used == |keys|)
    ensures outcome != Continue ==> used > 0
    ensures outcome == Submit ==> line != [] && line[|line| - 1] == ';'
    ensures outcome == EndSession ==> line == []
  {
    GoodSound(history.Snapshot());
    GoodSound(symbols.Snapshot());
    var editor := new Editor(history, symbols);
    outcome, used := editor.ReadLine(keys[pos..]);
    RunEnds(FreshLine(history.Snapshot()), keys[pos..], history.Snapshot(), symbols.Snapshot());
    line := editor.input;
  }

  /** A line that is run as it stands. */
  ghost predicate Runnable(q: string) {
    Classify(q) == Execute(q)
  }

  /** The statement taken from a submitted line is itself run as it stands. */
  lemma SubmittedRunnable(line: string)
    requires Classify(line).Execute?
    ensures Runnable(Classify(line).statement)
  {
    TrimIdempotent(line);
  }

  /** How the session loop stops. */
  datatype SessionEnd = Quitted | Closed | Crashed | KeysExhausted

  /** How the session stops when a line ends with `o`: a submitted line that ends it can only be a quit. */
  function Ending(o: Outcome): SessionEnd {
    match o
    case Submit => Quitted
    case EndSession => Closed
    case Panic => Crashed
    case Continue => KeysExhausted
  }

  /**
   * One pass of the session loop: the history it started with, the key it
   * started at, how the line ended, how many keys it read and the line.
   */
  datatype Attempt = Attempt(history: TrieState, start: nat, outcome: Outcome, used: nat, line: string)

  /** The attempt is what a fresh line on its history reads from its first key. */
  ghost predicate Reads(a: Attempt, symbols: TrieState, keys: seq<KeyPress>) {
    && a.start <= |keys| && Sound(a.history) && Sound(symbols)
    && var r := Run(FreshLine(a.history), keys[a.start..], a.history, symbols);
       r.0.input == a.line && r.1 == a.outcome && r.2 == a.used
  }

  /** The key loop sees the history only through its searches: histories that search alike run alike. */
  lemma {:induction false} RunSameSearches(s: EditState, keys: seq<KeyPress>, h1: TrieState, h2: TrieState, symbols: TrieState)
    requires Sound(symbols) && Inv(s, symbols)
    requires forall prefix :: Lookup(h1, prefix) == Lookup(h2, prefix)
    ensures Run(s, keys, h1, symbols) == Run(s, keys, h2, symbols)
    decreases |keys|
  {
    if keys != [] {
      RunFirst(s, keys, h1, symbols);
      RunFirst(s, keys, h2, symbols);
      var step := Next(s, keys[0], h1, symbols);
      assert step == Next(s, keys[0], h2, symbols);
      if step.1 == Continue {
        RunSameSearches(step.0, keys[1..], h1, h2, symbols);
      }
    }
  }

  /**
   * A pass is fixed by the key it starts at and the words the history
   * stores: the trie's arena has no say in the line read, how it ended or
   * how many keys it took.
   */
  lemma ReadsByContents(a: Attempt, b: Attempt, symbols: TrieState, keys: seq<KeyPress>)
    requires Reads(a, symbols, keys) && Reads(b, symbols, keys) && Good(a.history) && Good(b.history)
    requires a.start == b.start && a.history.contents == b.history.contents
    ensures a.line == b.line && a.outcome == b.outcome && a.used == b.used
  {
    forall prefix ensures Lookup(a.history, prefix) == Lookup(b.history, prefix) {
      LookupByContents(a.history, b.history, prefix);
    }
    assert FreshLine(a.history) == FreshLine(b.history);
    RunSameSearches(FreshLine(a.history), keys[a.start..], a.history, b.history, symbols);
  }

  /** The pass let the session go on: its line was submitted and did not quit. */
  predicate GoesOn(a: Attempt) {
    a.outcome == Submit && Classify(a.line) != Quit
  }

  /** Every pass of `trace` read its line on a well-formed history trie. */
  ghost predicate Grounded(trace: seq<Attempt>) {
    trace != [] ==> Grounded(trace[..|trace| - 1]) && Good(trace[|trace| - 1].history)
  }

  lemma {:induction false} GroundedEach(trace: seq<Attempt>, i: nat)
    requires Grounded(trace) && i < |trace|
    ensures Good(trace[i].history)
  {
    if i < |trace| - 1 {
      GroundedEach(trace[..|trace| - 1], i);
    }
  }

  /** Every pass of `trace` let the session go on. */
  predicate AllGoOn(trace: seq<Attempt>) {
    trace != [] ==> AllGoOn(trace[..|trace| - 1]) && GoesOn(trace[|trace| - 1])
  }

  /** Each pass of a trace that went on submitted a line that did not quit. */
  lemma {:induction false} AllGoOnEach(trace: seq<Attempt>, i: nat)
    requires AllGoOn(trace) && i < |trace|
    ensures trace[i].outcome == Submit && Classify(trace[i].line) != Quit
  {
    if i < |trace| - 1 {
      AllGoOnEach(trace[..|trace| - 1], i);
    }
  }

  /** The keys the attempts read, together. */
  function Consumed(trace: seq<Attempt>): nat {
    if trace == [] then 0 else Consumed(trace[..|trace| - 1]) + trace[|trace| - 1].used
  }

  /** The statement a line ending as `outcome` runs, if any: a submitted line that is neither a quit nor a clear, trimmed. */
  function Statement(outcome: Outcome, line: string): (r: seq<string>)
    ensures forall q :: q in r ==> Runnable(q)
  {
    if outcome == Submit && Classify(line).Execute? then
      SubmittedRunnable(line);
      [Classify(line).statement]
    else []
  }

  /** The statements the attempts run, in order. */
  function Executed(trace: seq<Attempt>): (run: seq<string>)
    ensures forall q :: q in run ==> Runnable(q)
  {
    if trace == [] then []
    else
      var a := trace[|trace| - 1];
      Executed(trace[..|trace| - 1]) + Statement(a.outcome, a.line)
  }

  /** The history contents after each statement of `run` is inserted in turn. */
  function InsertAll(contents: map<seq<Key>, string>, run: seq<string>): (r: map<seq<Key>, string>)
    ensures contents.Keys <= r.Keys
    ensures forall q :: q in run ==> KeyPath(q) in r
  {
    if run == [] then contents
    else
      var q := run[|run| - 1];
      var r := InsertAll(contents, run[..|run| - 1])[KeyPath(q) := q];
      assert forall u :: u in run ==> u in run[..|run| - 1] || u == q;
      r
  }

  /** A statement stays in the history unless a later statement shares its key path. */
  lemma {:induction false} InsertAllKeeps(contents: map<seq<Key>, string>, run: seq<string>, i: nat)
    requires i < |run|
    requires forall j :: i < j < |run| ==> KeyPath(run[j]) != KeyPath(run[i])
    ensures InsertAll(contents, run)[KeyPath(run[i])] == run[i]
  {
    if i < |run| - 1 {
      var front := run[..|run| - 1];
      assert forall j :: i < j < |front| ==> front[j] == run[j];
      InsertAllKeeps(contents, front, i);
    }
  }

  /**
   * The attempts of a session: each starts where the earlier ones stopped, on
   * the history their statements left, and reads as a fresh line does.
   */
  ghost predicate Chained(trace: seq<Attempt>, contents: map<seq<Key>, string>, symbols: TrieState, keys: seq<KeyPress>)
  {
    trace != [] ==>
      var earlier, a := trace[..|trace| - 1], trace[|trace| - 1];
      && Chained(earlier, contents, symbols, keys)
      && Reads(a, symbols, keys)
      && a.start == Consumed(earlier)
      && a.history.contents == InsertAll(contents, Executed(earlier))
  }

  /** Every attempt of a chained trace reads as a fresh line on the history the earlier statements left. */
  lemma {:induction false} ChainedEach(trace: seq<Attempt>, contents: map<seq<Key>, string>, symbols: TrieState, keys: seq<KeyPress>, i: nat)
    requires Chained(trace, contents, symbols, keys) && i < |trace|
    ensures Reads(trace[i], symbols, keys)
    ensures trace[i].start == Consumed(trace[..i])
    ensures trace[i].history.contents == InsertAll(contents, Executed(trace[..i]))
  {
    var earlier := trace[..|trace| - 1];
    if i < |earlier| {
      ChainedEach(earlier, contents, symbols, keys, i);
      assert earlier[..i] == trace[..i];
    }
  }

  /** A session's trace grows by an attempt that starts where it stopped, on the history it left. */
  lemma ChainedSnoc(trace: seq<Attempt>, a: Attempt, contents: map<seq<Key>, string>, symbols: TrieState, keys: seq<KeyPress>)
    requires Chained(trace, contents, symbols, keys) && Reads(a, symbols, keys)
    requires a.start == Consumed(trace) && a.history.contents == InsertAll(contents, Executed(trace))
    ensures Chained(trace + [a], contents, symbols, keys)
    ensures Consumed(trace + [a]) == Consumed(trace) + a.used
    ensures Executed(trace + [a])
              == Executed(trace) + Statement(a.outcome, a.line)
  {
    assert (trace + [a])[..|trace|] == trace;
  }

  /** A statement added to a run is inserted after the earlier ones. */
  lemma InsertAllSnoc(contents: map<seq<Key>, string>, run: seq<string>, q: string)
    ensures InsertAll(contents, run + [q]) == InsertAll(contents, run)[KeyPath(q) := q]
  {
    assert (run + [q])[..|run|] == run;
  }

  /** A session under way: every pass so far went on, they read the keys up to `pos` and ran `run`. */
  ghost predicate UnderWay(trace: seq<Attempt>, run: seq<string>, pos: nat,
                           contents: map<seq<Key>, string>, symbols: TrieState, keys: seq<KeyPress>) {
    && pos == Consumed(trace) && pos <= |keys|
    && Chained(trace, contents, symbols, keys) && Grounded(trace) && AllGoOn(trace) && run == Executed(trace)
  }

  /**
   * A finished session: its passes are chained, every pass but the last went
   * on, the last one decides how it stopped (a submitted line stops it only by
   * quitting), and `run` holds the statements of the submitted lines in order.
   */
  ghost predicate Completed(trace: seq<Attempt>, run: seq<string>, end: SessionEnd,
                            contents: map<seq<Key>, string>, symbols: TrieState, keys: seq<KeyPress>) {
    && trace != [] && Chained(trace, contents, symbols, keys) && Grounded(trace)
    && AllGoOn(trace[..|trace| - 1])
    && end == Ending(trace[|trace| - 1].outcome)
    && (end == Quitted ==> Classify(trace[|trace| - 1].line) == Quit)
    && run == Executed(trace)
  }

  /** A submitted `exit;` or `quit;` ends the session: such a pass is the last one, and the session stops as quitted. */
  lemma QuitEnds(trace: seq<Attempt>, run: seq<string>, end: SessionEnd,
                 contents: map<seq<Key>, string>, symbols: TrieState, keys: seq<KeyPress>, i: nat)
    requires Completed(trace, run, end, contents, symbols, keys) && i < |trace|
    requires trace[i].outcome == Submit && Classify(trace[i].line) == Quit
    ensures i == |trace| - 1 && end == Quitted
  {
    if i < |trace| - 1 {
      AllGoOnEach(trace[..|trace| - 1], i);
    }
  }

  /** A session that stops because the keys ran out has read every key. */
  lemma ExhaustedReadsAll(trace: seq<Attempt>, run: seq<string>,
                          contents: map<seq<Key>, string>, symbols: TrieState, keys: seq<KeyPress>)
    requires Completed(trace, run, KeysExhausted, contents, symbols, keys)
    ensures trace[|trace| - 1].start + trace[|trace| - 1].used == |keys|
  {
    var a := trace[|trace| - 1];
    ChainedEach(trace, contents, symbols, keys, |trace| - 1);
    RunEnds(FreshLine(a.history), keys[a.start..], a.history, symbols);
  }

  /** Two traces whose passes agree in all but the arenas of their histories. */
  ghost predicate Agree(t1: seq<Attempt>, t2: seq<Attempt>) {
    |t1| == |t2| && forall i :: 0 <= i < |t1| ==> t1[i].(history := t2[i].history) == t2[i]
  }

  /** Agreeing traces read the same number of keys and run the same statements. */
  lemma {:induction false} AgreeTotals(t1: seq<Attempt>, t2: seq<Attempt>)
    requires Agree(t1, t2)
    ensures Consumed(t1) == Consumed(t2) && Executed(t1) == Executed(t2)
    decreases |t1|
  {
    if t1 != [] {
      var n := |t1| - 1;
      assert Agree(t1[..n], t2[..n]) by {
        forall i | 0 <= i < n ensures t1[..n][i].(history := t2[..n][i].history) == t2[..n][i] {
          assert t1[..n][i] == t1[i] && t2[..n][i] == t2[i];
        }
      }
      AgreeTotals(t1[..n], t2[..n]);
      assert t1[n].(history := t2[n].history) == t2[n];
      assert t1[n].outcome == t2[n].outcome && t1[n].line == t2[n].line && t1[n].used == t2[n].used;
    }
  }

  /** Where two chained traces agree so far, their next passes agree too. */
  lemma PassAgrees(t1: seq<Attempt>, t2: seq<Attempt>, contents: map<seq<Key>, string>,
                   symbols: TrieState, keys: seq<KeyPress>, i: nat)
    requires Chained(t1, contents, symbols, keys) && Chained(t2, contents, symbols, keys)
    requires Grounded(t1) && Grounded(t2)
    requires i < |t1| && i < |t2| && Agree(t1[..i], t2[..i])
    ensures t1[i].(history := t2[i].history) == t2[i]
  {
    GroundedEach(t1, i);
    GroundedEach(t2, i);
    ChainedEach(t1, contents, symbols, keys, i);
    ChainedEach(t2, contents, symbols, keys, i);
    AgreeTotals(t1[..i], t2[..i]);
    ReadsByContents(t1[i], t2[i], symbols, keys);
  }

  /** Two chained traces on the same keys and history contents agree pass by pass, as far as both go. */
  lemma {:induction false} ChainedAgree(t1: seq<Attempt>, t2: seq<Attempt>, contents: map<seq<Key>, string>,
                                        symbols: TrieState, keys: seq<KeyPress>, n: nat)
    requires Chained(t1, contents, symbols, keys) && Chained(t2, contents, symbols, keys)
    requires Grounded(t1) && Grounded(t2) && n <= |t1| && n <= |t2|
    ensures Agree(t1[..n], t2[..n])
    decreases n
  {
    if n > 0 {
      var i := n - 1;
      ChainedAgree(t1, t2, contents, symbols, keys, i);
      PassAgrees(t1, t2, contents, symbols, keys, i);
      AgreeSnoc(t1, t2, i);
    }
  }

  /** Traces that agree on their first `n` passes and on pass `n` agree on their first `n + 1`. */
  lemma AgreeSnoc(t1: seq<Attempt>, t2: seq<Attempt>, n: nat)
    requires n < |t1| && n < |t2| && Agree(t1[..n], t2[..n])
    requires t1[n].(history := t2[n].history) == t2[n]
    ensures Agree(t1[..n + 1], t2[..n + 1])
  {
    var k := n + 1;
    forall j | 0 <= j < k ensures t1[..k][j].(history := t2[..k][j].history) == t2[..k][j] {
      if j < n {
        assert t1[..n][j] == t1[j] && t2[..n][j] == t2[j];
      }
    }
  }

  /** The last pass of a finished session does not go on. */
  lemma LastStops(trace: seq<Attempt>, run: seq<string>, end: SessionEnd,
                  contents: map<seq<Key>, string>, symbols: TrieState, keys: seq<KeyPress>)
    requires Completed(trace, run, end, contents, symbols, keys)
    ensures !GoesOn(trace[|trace| - 1])
  {
  }

  /**
   * The keys and the history's contents decide the session: any two finished
   * sessions on them run the same statements and end the same way.
   */
  lemma SessionDetermined(t1: seq<Attempt>, run1: seq<string>, end1: SessionEnd,
                          t2: seq<Attempt>, run2: seq<string>, end2: SessionEnd,
                          contents: map<seq<Key>, string>, symbols: TrieState, keys: seq<KeyPress>)
    requires Completed(t1, run1, end1, contents, symbols, keys)
    requires Completed(t2, run2, end2, contents, symbols, keys)
    ensures run1 == run2 && end1 == end2
  {
    if |t1| < |t2| {
      OutlivedAgree(t1, run1, end1, t2, run2, end2, contents, symbols, keys);
    } else if |t2| < |t1| {
      OutlivedAgree(t2, run2, end2, t1, run1, end1, contents, symbols, keys);
    }
    var n := |t1|;
    ChainedAgree(t1, t2, contents, symbols, keys, n);
    assert t1[..n] == t1 && t2[..n] == t2;
    AgreeTotals(t1, t2);
    assert t1[n - 1].(history := t2[n - 1].history) == t2[n - 1];
  }

  /** A finished session never has fewer passes than another finished session on the same keys and contents. */
  lemma OutlivedAgree(t1: seq<Attempt>, run1: seq<string>, end1: SessionEnd,
                      t2: seq<Attempt>, run2: seq<string>, end2: SessionEnd,
                      contents: map<seq<Key>, string>, symbols: TrieState, keys: seq<KeyPress>)
    requires Completed(t1, run1, end1, contents, symbols, keys)
    requires Completed(t2, run2, end2, contents, symbols, keys)
    ensures |t2| <= |t1|
  {
    if |t1| < |t2| {
      var m := |t1| - 1;
      LastStops(t1, run1, end1, contents, symbols, keys);
      ChainedAgree(t1, t2, contents, symbols, keys, |t1|);
      assert t1[..|t1|][m] == t1[m] && t2[..|t1|][m] == t2[m] && t2[..|t2| - 1][m] == t2[m];
      AllGoOnEach(t2[..|t2| - 1], m);
      assert false;
    }
  }

  /** The statements run after pass `a`: a submitted line that is neither a quit nor a clear adds its statement. */
  function RunAfter(run: seq<string>, a: Attempt): seq<string> {
    run + Statement(a.outcome, a.line)
  }

  /** A pass either finishes the session or leaves it under way further on. */
  lemma Advance(trace: seq<Attempt>, a: Attempt, run: seq<string>,
                contents: map<seq<Key>, string>, symbols: TrieState, keys: seq<KeyPress>)
    requires UnderWay(trace, run, a.start, contents, symbols, keys)
    requires Reads(a, symbols, keys) && Good(a.history) && a.history.contents == InsertAll(contents, run)
    ensures !GoesOn(a) ==> Completed(trace + [a], RunAfter(run, a), Ending(a.outcome), contents, symbols, keys)
    ensures GoesOn(a) ==> UnderWay(trace + [a], RunAfter(run, a), a.start + a.used, contents, symbols, keys)
  {
    ChainedSnoc(trace, a, contents, symbols, keys);
    var later := trace + [a];
    assert later[..|trace|] == trace && later[|later| - 1] == a;
    if GoesOn(a) {
      GoesOnFurther(trace, a, run, contents, symbols, keys);
    } else {
      StopsHere(trace, a, run, contents, symbols, keys);
    }
  }

  /** A pass that goes on leaves the session under way after its keys. */
  lemma GoesOnFurther(trace: seq<Attempt>, a: Attempt, run: seq<string>,
                      contents: map<seq<Key>, string>, symbols: TrieState, keys: seq<KeyPress>)
    requires run == Executed(trace) && AllGoOn(trace) && GoesOn(a) && a.start + a.used <= |keys|
    requires Chained(trace + [a], contents, symbols, keys) && Consumed(trace + [a]) == a.start + a.used
    requires Grounded(trace) && Good(a.history)
    requires (trace + [a])[..|trace|] == trace
    ensures UnderWay(trace + [a], RunAfter(run, a), a.start + a.used, contents, symbols, keys)
  {
    var later := trace + [a];
    assert later[|later| - 1] == a;
    assert Grounded(later) && AllGoOn(later);
    assert Executed(later) == RunAfter(run, a);
  }

  /** A pass that does not go on finishes the session, as its outcome says. */
  lemma StopsHere(trace: seq<Attempt>, a: Attempt, run: seq<string>,
                  contents: map<seq<Key>, string>, symbols: TrieState, keys: seq<KeyPress>)
    requires run == Executed(trace) && AllGoOn(trace) && !GoesOn(a)
    requires Chained(trace + [a], contents, symbols, keys) && (trace + [a])[..|trace|] == trace
    requires Grounded(trace) && Good(a.history)
    ensures Completed(trace + [a], RunAfter(run, a), Ending(a.outcome), contents, symbols, keys)
  {
    var later := trace + [a];
    assert later[|later| - 1] == a;
    assert Grounded(later) && AllGoOn(later[..|later| - 1]);
    assert a.outcome == Submit ==> Classify(a.line) == Quit;
    assert Executed(later) == RunAfter(run, a);
  }

  /**
   * One pass of the session loop from key `pos`: a line is edited, and a
   * submitted line is handled. The pass either stops the session, or leaves it
   * under way at `pos'`.
   */
  method SessionPass(history: Trie, symbols: Trie, keys: seq<KeyPress>, pos: nat, run: seq<string>,
                     ghost trace: seq<Attempt>, ghost contents: map<seq<Key>, string>, ghost ss: TrieState)
    returns (stop: bool, end: SessionEnd, pos': nat, run': seq<string>, ghost trace': seq<Attempt>)
    requires history.Valid() && symbols.Valid() && history != symbols && symbols.Snapshot() == ss
    requires UnderWay(trace, run, pos, contents, ss, keys) && history.Contents == InsertAll(contents, run)
    modifies history
    ensures history.Valid() && history.Contents == InsertAll(contents, run')
    ensures stop ==> Completed(trace', run', end, contents, ss, keys)
    ensures pos <= pos' <= |keys| && (!stop ==> pos' > pos)
    ensures !stop ==> UnderWay(trace', run', pos', contents, ss, keys)
  {
    var outcome, used, line := EditLine(history, symbols, keys, pos);
    ghost var a := Attempt(history.Snapshot(), pos, outcome, used, line);
    Advance(trace, a, run, contents, ss, keys);
    trace' := trace + [a];
    pos' := pos + used;
    run' := run;
    stop, end := true, Ending(outcome);
    if outcome == Submit {
      var submitted := HandleSubmitted(history, line);
      if submitted.Execute? {
        InsertAllSnoc(contents, run, submitted.statement);
        run' := run + [submitted.statement];
      }
      stop := submitted == Quit;
    }
    assert run' == RunAfter(run, a) && stop == !GoesOn(a);
  }

  /**
   * The session loop (src/main.rs:98-250): a fresh line per iteration, keys
   * read until the line is submitted, then the submitted line handled. The
   * statements run, in order, are returned; running them is not part of this
   * model. `trace` records each pass of the loop.
   */
  method Session(history: Trie, symbols: Trie, keys: seq<KeyPress>)
    returns (run: seq<string>, end: SessionEnd, ghost trace: seq<Attempt>)
    requires history.Valid() && symbols.Valid() && history != symbols
    modifies history
    ensures history.Valid()
    ensures Completed(trace, run, end, old(history.Contents), symbols.Snapshot(), keys)
    ensures history.Contents == InsertAll(old(history.Contents), run)
  {
    ghost var contents := history.Contents;
    ghost var ss := symbols.Snapshot();
    run := [];
    trace := [];
    var pos := 0;
    var stop := false;
    end := KeysExhausted;
    while !stop
      invariant history.Valid() && symbols.Valid() && symbols.Snapshot() == ss
      invariant history.Contents == InsertAll(contents, run)
      invariant stop ==> Completed(trace, run, end, contents, ss, keys)
      invariant !stop ==> UnderWay(trace, run, pos, contents, ss, keys)
      decreases |keys| - pos, !stop
    {
      stop, end, pos, run, trace := SessionPass(history, symbols, keys, pos, run, trace, contents, ss);
    }
  }
}
