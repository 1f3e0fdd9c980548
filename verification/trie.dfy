/**
 * The character-keyed prefix trie (src/trie.rs).
 *
 * Every node has one child slot per byte value; a character selects the slot
 * of its code point's low byte (the source indexes with `c as u8`). The nodes
 * live in an arena, `nodes`, addressed by index, with the root at index 0; a
 * child is always allocated after its parent, so it has a larger index.
 *
 * The abstract content of a trie is a map from key paths to the word stored at
 * the node that path leads to. Two words whose characters agree modulo 256 have
 * the same key path and so share one node: storing one replaces the other.
 */
module PrefixTrie {
  import opened Common

  /** Child slots per node (TRIE_SIZE in the source). */
  const TRIE_SIZE := 256

  type Key = k: int | 0 <= k < TRIE_SIZE

  /** The slot a character selects: `c as u8`, the code point modulo 256. */
  function KeyOf(c: char): Key {
    (c as int) % TRIE_SIZE
  }

  function KeyPath(s: string): seq<Key> {
    seq(|s|, i requires 0 <= i < |s| => KeyOf(s[i]))
  }

  /** One arena node: the child index per occupied slot, and the word stored here. */
  datatype Node = Node(children: map<Key, nat>, word: Option<string>)

  /**
   * Bookkeeping about the arena that the source keeps implicit in its tree of
   * boxes: the key path leading to each node, each node's parent, and the node
   * on each path.
   */
  datatype Layout = Layout(paths: seq<seq<Key>>, parent: seq<nat>, index: map<seq<Key>, nat>)

  /** Children are allocated after their parent and inside the arena. */
  predicate ChildrenAfter(nodes: seq<Node>) {
    forall i, k :: 0 <= i < |nodes| && k in nodes[i].children ==> i < nodes[i].children[k] < |nodes|
  }

  function Parent(p: seq<Key>): seq<Key>
    requires p != []
  {
    p[..|p| - 1]
  }

  /** The root is node 0 with the empty path; children come after their parent. */
  ghost predicate Shaped(nodes: seq<Node>, l: Layout) {
    |nodes| == |l.paths| == |l.parent| && 0 < |nodes| && l.paths[0] == [] && ChildrenAfter(nodes)
  }

  /** `index` is the inverse of `paths`: no two nodes share a path. */
  ghost predicate Indexed(l: Layout) {
    && (forall i :: 0 <= i < |l.paths| ==> l.paths[i] in l.index && l.index[l.paths[i]] == i)
    && (forall p :: p in l.index ==> l.index[p] < |l.paths| && l.paths[l.index[p]] == p)
  }

  /** Following slot `k` appends `k` to the path. */
  ghost predicate EdgesExtend(nodes: seq<Node>, l: Layout) {
    forall i, k :: 0 <= i < |nodes| && i < |l.paths| && k in nodes[i].children ==>
      nodes[i].children[k] < |l.paths| && l.paths[nodes[i].children[k]] == l.paths[i] + [k]
  }

  /** Every node but the root hangs off its parent by the last key of its path. */
  ghost predicate ParentEdges(nodes: seq<Node>, l: Layout) {
    forall i {:trigger l.parent[i]} :: 0 < i < |nodes| && i < |l.paths| && i < |l.parent| ==>
      && l.parent[i] < i
      && l.paths[i] != []
      && l.paths[l.parent[i]] == Parent(l.paths[i])
      && l.paths[i][|l.paths[i]| - 1] in nodes[l.parent[i]].children
  }

  /** A node's stored word is the string whose key path leads to it. */
  ghost predicate TerminalsOnPath(nodes: seq<Node>, l: Layout) {
    forall i :: 0 <= i < |nodes| && i < |l.paths| && nodes[i].word.Some? ==>
      KeyPath(nodes[i].word.value) == l.paths[i]
  }

  /** `contents` lists exactly the storing nodes, by path. */
  ghost predicate ContentsAgree(nodes: seq<Node>, l: Layout, contents: map<seq<Key>, string>) {
    && (forall p :: p in contents ==>
          p in l.index && l.index[p] < |nodes| && nodes[l.index[p]].word == Some(contents[p]))
    && (forall p :: p in l.index && l.index[p] < |nodes| && nodes[l.index[p]].word.Some? ==> p in contents)
  }

  /**
   * The arena is a tree whose node `i` is reached along key path `paths[i]`;
   * the node reached along a word's key path stores that word, and `contents`
   * maps the path of each storing node to its word.
   */
  ghost predicate Wf(nodes: seq<Node>, l: Layout, contents: map<seq<Key>, string>) {
    && Shaped(nodes, l)
    && Indexed(l)
    && EdgesExtend(nodes, l)
    && ParentEdges(nodes, l)
    && TerminalsOnPath(nodes, l)
    && ContentsAgree(nodes, l, contents)
  }

  /** `w` is stored: the node on its key path holds exactly `w`. */
  ghost predicate Stores(contents: map<seq<Key>, string>, w: string) {
    KeyPath(w) in contents && contents[KeyPath(w)] == w
  }

  /** `w` is stored and its key path extends the prefix's. */
  ghost predicate Matches(contents: map<seq<Key>, string>, prefix: string, w: string) {
    Stores(contents, w) && IsPrefix(KeyPath(prefix), KeyPath(w))
  }

  /** Every stored word sits on its own key path. */
  ghost predicate Consistent(contents: map<seq<Key>, string>) {
    forall p :: p in contents ==> KeyPath(contents[p]) == p
  }

  /**
   * The subtree collector that `search_all` hands the reached node to: the
   * node's own word, then each occupied slot's subtree in slot order.
   */
  function Collect(nodes: seq<Node>, i: nat): seq<string>
    requires ChildrenAfter(nodes) && i < |nodes|
    decreases |nodes| - i, TRIE_SIZE + 1
  {
    (if nodes[i].word.Some? then [nodes[i].word.value] else []) + CollectFrom(nodes, i, 0)
  }

  function CollectFrom(nodes: seq<Node>, i: nat, k: nat): seq<string>
    requires ChildrenAfter(nodes) && i < |nodes| && k <= TRIE_SIZE
    decreases |nodes| - i, TRIE_SIZE - k
  {
    if k == TRIE_SIZE then []
    else (if k in nodes[i].children then Collect(nodes, nodes[i].children[k]) else [])
         + CollectFrom(nodes, i, k + 1)
  }

  lemma KeyPathSnoc(s: string, j: nat)
    requires j < |s|
    ensures KeyPath(s[..j + 1]) == KeyPath(s[..j]) + [KeyOf(s[j])]
  {
  }

  lemma KeyPathPrefix(s: string, n: nat)
    requires n <= |s|
    ensures KeyPath(s[..n]) == KeyPath(s)[..n]
  {
  }

  /** Every prefix of a node's path is itself the path of a node. */
  lemma {:induction false} PrefixHasNode(nodes: seq<Node>, l: Layout, contents: map<seq<Key>, string>,
                                         p: seq<Key>, m: nat)
    requires Wf(nodes, l, contents)
    requires p in l.index && m <= |p|
    ensures p[..m] in l.index
    decreases |p|
  {
    if m < |p| {
      var j := l.index[p];
      assert l.paths[j] == p && j != 0;
      var up := l.parent[j];
      assert l.paths[up] == Parent(p);
      assert Parent(p)[..m] == p[..m];
      PrefixHasNode(nodes, l, contents, Parent(p), m);
    } else {
      assert p[..m] == p;
    }
  }

  /** A node on path `paths[i] + [k]` is the child in slot `k` of node `i`. */
  lemma ChildOfPath(nodes: seq<Node>, l: Layout, contents: map<seq<Key>, string>, i: nat, k: Key)
    requires Wf(nodes, l, contents) && i < |nodes| && l.paths[i] + [k] in l.index
    ensures k in nodes[i].children && nodes[i].children[k] == l.index[l.paths[i] + [k]]
  {
    var q := l.paths[i] + [k];
    var j := l.index[q];
    assert l.paths[j] == q && j != 0;
    var up := l.parent[j];
    assert l.paths[up] == Parent(q) == l.paths[i];
    assert up == i;
    var c := nodes[i].children[k];
    assert l.paths[c] == q;
  }

  /** The words `Collect` returns are exactly the stored words below node `i`. */
  lemma {:induction false} CollectExactly(nodes: seq<Node>, l: Layout, contents: map<seq<Key>, string>,
                                          i: nat, w: string)
    requires Wf(nodes, l, contents) && i < |nodes|
    ensures w in Collect(nodes, i) <==> Stores(contents, w) && IsPrefix(l.paths[i], KeyPath(w))
    decreases |nodes| - i, TRIE_SIZE + 1
  {
    CollectFromExactly(nodes, l, contents, i, 0, w);
    var own := if nodes[i].word.Some? then [nodes[i].word.value] else [];
    assert Collect(nodes, i) == own + CollectFrom(nodes, i, 0);
    if w in own {
      assert KeyPath(w) == l.paths[i];
    }
    if Stores(contents, w) && KeyPath(w) == l.paths[i] {
      assert nodes[l.index[l.paths[i]]].word == Some(w);
    }
  }

  /** `CollectFrom(nodes, i, k)` holds the stored words below a slot `>= k` of node `i`. */
  lemma {:induction false} CollectFromExactly(nodes: seq<Node>, l: Layout, contents: map<seq<Key>, string>,
                                              i: nat, k: nat, w: string)
    requires Wf(nodes, l, contents) && i < |nodes| && k <= TRIE_SIZE
    ensures w in CollectFrom(nodes, i, k) <==>
              Stores(contents, w) && IsPrefix(l.paths[i], KeyPath(w)) && |l.paths[i]| < |KeyPath(w)|
              && KeyPath(w)[|l.paths[i]|] >= k
    decreases |nodes| - i, TRIE_SIZE - k
  {
    if k < TRIE_SIZE {
      CollectFromExactly(nodes, l, contents, i, k + 1, w);
      CollectSlotExactly(nodes, l, contents, i, k, w);
      NextKeyPrefix(l.paths[i], k, KeyPath(w));
    }
  }

  /** The words collected through slot `k` of node `i` are the stored words below `paths[i] + [k]`. */
  lemma {:induction false} CollectSlotExactly(nodes: seq<Node>, l: Layout, contents: map<seq<Key>, string>,
                                              i: nat, k: Key, w: string)
    requires Wf(nodes, l, contents) && i < |nodes|
    ensures CollectFrom(nodes, i, k) ==
              (if k in nodes[i].children then Collect(nodes, nodes[i].children[k]) else [])
              + CollectFrom(nodes, i, k + 1)
    ensures w in (if k in nodes[i].children then Collect(nodes, nodes[i].children[k]) else []) <==>
              Stores(contents, w) && IsPrefix(l.paths[i] + [k], KeyPath(w))
    decreases |nodes| - i, 0
  {
    if k in nodes[i].children {
      var c := nodes[i].children[k];
      CollectExactly(nodes, l, contents, c, w);
      assert l.paths[c] == l.paths[i] + [k];
    }
    if Stores(contents, w) && IsPrefix(l.paths[i] + [k], KeyPath(w)) {
      StoredBelowSlot(nodes, l, contents, i, k, w);
    }
  }

  /** A path extends `p + [k]` exactly when it extends `p` and continues with `k`. */
  lemma NextKeyPrefix(p: seq<Key>, k: Key, s: seq<Key>)
    ensures IsPrefix(p + [k], s) <==> IsPrefix(p, s) && |p| < |s| && s[|p|] == k
  {
    if IsPrefix(p, s) && |p| < |s| && s[|p|] == k {
      assert s[..|p| + 1] == s[..|p|] + [s[|p|]];
    }
  }

  /** A stored word whose path continues below node `i` through slot `k` lies below that child. */
  lemma StoredBelowSlot(nodes: seq<Node>, l: Layout, contents: map<seq<Key>, string>,
                        i: nat, k: Key, w: string)
    requires Wf(nodes, l, contents) && i < |nodes|
    requires Stores(contents, w) && IsPrefix(l.paths[i] + [k], KeyPath(w))
    ensures k in nodes[i].children && IsPrefix(l.paths[nodes[i].children[k]], KeyPath(w))
  {
    PrefixHasNode(nodes, l, contents, KeyPath(w), |l.paths[i]| + 1);
    ChildOfPath(nodes, l, contents, i, k);
  }

  /** No stored word lies below a slot that is unoccupied. */
  lemma NoMatchBelowMissingSlot(nodes: seq<Node>, l: Layout, contents: map<seq<Key>, string>,
                                i: nat, k: Key, w: string)
    requires Wf(nodes, l, contents) && i < |nodes| && k !in nodes[i].children
    ensures !(Stores(contents, w) && IsPrefix(l.paths[i] + [k], KeyPath(w)))
  {
    if Stores(contents, w) && IsPrefix(l.paths[i] + [k], KeyPath(w)) {
      StoredBelowSlot(nodes, l, contents, i, k, w);
    }
  }

  /** The arena after hanging a fresh empty node off slot `k` of node `n`. */
  function AddChild(nodes: seq<Node>, n: nat, k: Key): seq<Node>
    requires n < |nodes|
  {
    nodes[n := nodes[n].(children := nodes[n].children[k := |nodes|])] + [Node(map[], None)]
  }

  ghost function AddChildLayout(l: Layout, n: nat, k: Key): Layout
    requires n < |l.paths|
  {
    var q := l.paths[n] + [k];
    Layout(l.paths + [q], l.parent + [n], l.index[q := |l.paths|])
  }

  lemma AddChildIndexed(l: Layout, n: nat, k: Key)
    requires Indexed(l) && n < |l.paths| && l.paths[n] + [k] !in l.index
    ensures Indexed(AddChildLayout(l, n, k))
  {
    var l' := AddChildLayout(l, n, k);
    forall i | 0 <= i < |l'.paths|
      ensures l'.paths[i] in l'.index && l'.index[l'.paths[i]] == i
    {
      if i < |l.paths| {
        assert l'.paths[i] == l.paths[i] && l.paths[i] in l.index;
      }
    }
  }

  lemma AddChildParentEdges(nodes: seq<Node>, l: Layout, contents: map<seq<Key>, string>, n: nat, k: Key)
    requires Wf(nodes, l, contents) && n < |nodes| && k !in nodes[n].children
    ensures ParentEdges(AddChild(nodes, n, k), AddChildLayout(l, n, k))
  {
    var nodes', l' := AddChild(nodes, n, k), AddChildLayout(l, n, k);
    forall i | 0 < i < |nodes'| && i < |l'.paths| && i < |l'.parent|
      ensures && l'.parent[i] < i
              && l'.paths[i] != []
              && l'.paths[l'.parent[i]] == Parent(l'.paths[i])
              && l'.paths[i][|l'.paths[i]| - 1] in nodes'[l'.parent[i]].children
    {
      if i < |nodes| {
        assert l'.parent[i] == l.parent[i] && l'.paths[i] == l.paths[i];
        assert nodes[l.parent[i]].children.Keys <= nodes'[l.parent[i]].children.Keys;
      } else {
        assert l'.parent[i] == n && l'.paths[i] == l.paths[n] + [k];
      }
    }
  }

  lemma AddChildContents(nodes: seq<Node>, l: Layout, contents: map<seq<Key>, string>, n: nat, k: Key)
    requires Wf(nodes, l, contents) && n < |nodes| && l.paths[n] + [k] !in l.index
    ensures ContentsAgree(AddChild(nodes, n, k), AddChildLayout(l, n, k), contents)
  {
    var q := l.paths[n] + [k];
    var nodes', l' := AddChild(nodes, n, k), AddChildLayout(l, n, k);
    forall p | p in contents
      ensures p in l'.index && l'.index[p] < |nodes'| && nodes'[l'.index[p]].word == Some(contents[p])
    {
      assert p in l.index && p != q;
    }
    forall p | p in l'.index && l'.index[p] < |nodes'| && nodes'[l'.index[p]].word.Some?
      ensures p in contents
    {
      if p != q {
        assert l'.index[p] == l.index[p];
      }
    }
  }

  lemma AddChildLocal(nodes: seq<Node>, l: Layout, contents: map<seq<Key>, string>, n: nat, k: Key)
    requires Wf(nodes, l, contents) && n < |nodes| && k !in nodes[n].children
    ensures ChildrenAfter(AddChild(nodes, n, k))
    ensures EdgesExtend(AddChild(nodes, n, k), AddChildLayout(l, n, k))
    ensures TerminalsOnPath(AddChild(nodes, n, k), AddChildLayout(l, n, k))
  {
    var nodes', l' := AddChild(nodes, n, k), AddChildLayout(l, n, k);
    forall i, k' | 0 <= i < |nodes'| && k' in nodes'[i].children
      ensures i < nodes'[i].children[k'] < |nodes'|
    {
      if i != n {
        assert nodes'[i] == nodes[i];
      }
    }
    forall i, k' | 0 <= i < |nodes'| && i < |l'.paths| && k' in nodes'[i].children
      ensures nodes'[i].children[k'] < |l'.paths| && l'.paths[nodes'[i].children[k']] == l'.paths[i] + [k']
    {
      if i != n || k' != k {
        assert nodes'[i].children[k'] == nodes[i].children[k'];
      }
    }
    forall i | 0 <= i < |nodes'| && i < |l'.paths| && nodes'[i].word.Some?
      ensures KeyPath(nodes'[i].word.value) == l'.paths[i]
    {
      assert nodes'[i].word == nodes[i].word;
    }
  }

  /** Hanging a fresh empty node off slot `k` of node `n` keeps the arena well formed. */
  lemma AddChildWf(nodes: seq<Node>, l: Layout, contents: map<seq<Key>, string>, n: nat, k: Key)
    requires Wf(nodes, l, contents) && n < |nodes| && k !in nodes[n].children
    ensures Wf(AddChild(nodes, n, k), AddChildLayout(l, n, k), contents)
  {
    if l.paths[n] + [k] in l.index {
      ChildOfPath(nodes, l, contents, n, k);
    }
    AddChildIndexed(l, n, k);
    AddChildParentEdges(nodes, l, contents, n, k);
    AddChildContents(nodes, l, contents, n, k);
    AddChildLocal(nodes, l, contents, n, k);
  }

  /** Storing `w` at the node on its key path keeps the arena well formed. */
  lemma SetWordWf(nodes: seq<Node>, l: Layout, contents: map<seq<Key>, string>, n: nat, w: string)
    requires Wf(nodes, l, contents) && n < |nodes| && l.paths[n] == KeyPath(w)
    ensures Wf(nodes[n := nodes[n].(word := Some(w))], l, contents[KeyPath(w) := w])
  {
    var nodes' := nodes[n := nodes[n].(word := Some(w))];
    var contents' := contents[KeyPath(w) := w];
    forall i | 0 <= i < |nodes|
      ensures nodes'[i].children == nodes[i].children
    {
    }
    assert ChildrenAfter(nodes');
    assert EdgesExtend(nodes', l);
    assert ParentEdges(nodes', l);
    assert ContentsAgree(nodes', l, contents') by {
      assert l.index[KeyPath(w)] == n;
      forall p | p in contents'
        ensures p in l.index && l.index[p] < |nodes'| && nodes'[l.index[p]].word == Some(contents'[p])
      {
        if p != KeyPath(w) {
          assert l.index[p] != n;
        }
      }
    }
  }

  /**
   * What `search_all(prefix)` returns: the collector at the node on the
   * prefix's key path, if there is one.
   */
  ghost function SearchOf(nodes: seq<Node>, l: Layout, prefix: string): (r: seq<string>)
    ensures KeyPath(prefix) !in l.index ==> r == []
  {
    var p := KeyPath(prefix);
    if p in l.index && l.index[p] < |nodes| && ChildrenAfter(nodes) then Collect(nodes, l.index[p]) else []
  }

  /** Prefix soundness and completeness: the search returns exactly the stored words matching the prefix. */
  lemma SearchExactly(nodes: seq<Node>, l: Layout, contents: map<seq<Key>, string>, prefix: string, w: string)
    requires Wf(nodes, l, contents)
    ensures w in SearchOf(nodes, l, prefix) <==> Matches(contents, prefix, w)
  {
    var p := KeyPath(prefix);
    if p in l.index {
      CollectExactly(nodes, l, contents, l.index[p], w);
    } else if Matches(contents, prefix, w) {
      PrefixHasNode(nodes, l, contents, KeyPath(w), |p|);
    }
  }

  /** A longer prefix never finds more: searching `p` returns a subset of searching its prefix `q`. */
  lemma SearchMonotone(nodes: seq<Node>, l: Layout, contents: map<seq<Key>, string>, q: string, p: string)
    requires Wf(nodes, l, contents) && IsPrefix(q, p)
    ensures forall w :: w in SearchOf(nodes, l, p) ==> w in SearchOf(nodes, l, q)
  {
    forall w | w in SearchOf(nodes, l, p)
      ensures w in SearchOf(nodes, l, q)
    {
      SearchExactly(nodes, l, contents, p, w);
      SearchExactly(nodes, l, contents, q, w);
      assert KeyPath(q) == KeyPath(p)[..|q|];
      assert KeyPath(w)[..|q|] == KeyPath(w)[..|p|][..|q|];
    }
  }

  /** Every stored word lies on its own key path. */
  lemma WfConsistent(nodes: seq<Node>, l: Layout, contents: map<seq<Key>, string>)
    requires Wf(nodes, l, contents)
    ensures Consistent(contents)
  {
    forall p | p in contents
      ensures KeyPath(contents[p]) == p
    {
      assert nodes[l.index[p]].word == Some(contents[p]);
    }
  }

  predicate Narrow(s: string) {
    forall i :: 0 <= i < |s| ==> (s[i] as int) < TRIE_SIZE
  }

  /**
   * For characters below 256 the key path is the string itself, so a word
   * matching a prefix literally starts with it.
   */
  lemma NarrowKeyPrefix(prefix: string, w: string)
    requires Narrow(prefix) && Narrow(w)
    ensures IsPrefix(KeyPath(prefix), KeyPath(w)) <==> IsPrefix(prefix, w)
  {
    if IsPrefix(KeyPath(prefix), KeyPath(w)) {
      forall i | 0 <= i < |prefix|
        ensures w[i] == prefix[i]
      {
        assert KeyPath(w)[i] == KeyPath(prefix)[i];
      }
    }
  }

  /** Storing `w` at the end of its key path keeps the arena well formed and makes `w` findable by itself. */
  lemma StoreWord(nodes: seq<Node>, l: Layout, contents: map<seq<Key>, string>, n: nat, w: string)
    requires Wf(nodes, l, contents) && n < |nodes| && l.paths[n] == KeyPath(w)
    ensures Wf(nodes[n := nodes[n].(word := Some(w))], l, contents[KeyPath(w) := w])
    ensures w in SearchOf(nodes[n := nodes[n].(word := Some(w))], l, w)
  {
    SetWordWf(nodes, l, contents, n, w);
    SearchExactly(nodes[n := nodes[n].(word := Some(w))], l, contents[KeyPath(w) := w], w, w);
  }

  /**
   * Storing `w` only replaces the word on `w`'s key path: every other stored
   * word stays, and storing an already stored word changes nothing.
   */
  lemma StoreKeepsOthers(contents: map<seq<Key>, string>, w: string)
    ensures forall u :: Stores(contents, u) && KeyPath(u) != KeyPath(w) ==> Stores(contents[KeyPath(w) := w], u)
    ensures Stores(contents, w) ==> contents[KeyPath(w) := w] == contents
  {
  }

  /** A trie's content as a value: its arena, the arena's layout and the stored words by path. */
  datatype TrieState = TrieState(nodes: seq<Node>, layout: Layout, contents: map<seq<Key>, string>)

  ghost predicate Good(t: TrieState) {
    Wf(t.nodes, t.layout, t.contents)
  }

  /**
   * `search_all(prefix)` on a trie in state `t`: `SearchOf` on a state taken
   * as one value, so that the editor can read a trie's searches without the heap.
   */
  ghost function Lookup(t: TrieState, prefix: string): seq<string>
  {
    SearchOf(t.nodes, t.layout, prefix)
  }

  /** Every search returns exactly the stored words that match its prefix. */
  ghost predicate Sound(t: TrieState) {
    forall prefix, w :: w in Lookup(t, prefix) <==> Matches(t.contents, prefix, w)
  }

  lemma GoodSound(t: TrieState)
    requires Good(t)
    ensures Sound(t)
  {
    forall prefix, w ensures w in Lookup(t, prefix) <==> Matches(t.contents, prefix, w) {
      SearchExactly(t.nodes, t.layout, t.contents, prefix, w);
    }
  }

  /** A storing node holds the word its path maps to, and a node off every stored path holds none. */
  lemma OwnWord(nodes: seq<Node>, l: Layout, contents: map<seq<Key>, string>, i: nat)
    requires Wf(nodes, l, contents) && i < |nodes|
    ensures nodes[i].word == if l.paths[i] in contents then Some(contents[l.paths[i]]) else None
  {
    assert l.index[l.paths[i]] == i;
  }

  /** Below a slot that only the first arena occupies, the first arena collects nothing. */
  lemma EmptyBelowSlot(n1: seq<Node>, l1: Layout, n2: seq<Node>, l2: Layout, contents: map<seq<Key>, string>,
                       i1: nat, i2: nat, k: Key)
    requires Wf(n1, l1, contents) && Wf(n2, l2, contents)
    requires i1 < |n1| && i2 < |n2| && l1.paths[i1] == l2.paths[i2]
    requires k in n1[i1].children && k !in n2[i2].children
    ensures Collect(n1, n1[i1].children[k]) == []
  {
    var c := n1[i1].children[k];
    var below := Collect(n1, c);
    if below != [] {
      CollectExactly(n1, l1, contents, c, below[0]);
      assert l1.paths[c] == l2.paths[i2] + [k];
      NoMatchBelowMissingSlot(n2, l2, contents, i2, k, below[0]);
    }
  }

  /**
   * Two well-formed arenas with the same contents collect the same words, in
   * the same order, below the nodes on one path.
   */
  lemma {:induction false} CollectSameContents(n1: seq<Node>, l1: Layout, n2: seq<Node>, l2: Layout,
                                               contents: map<seq<Key>, string>, i1: nat, i2: nat)
    requires Wf(n1, l1, contents) && Wf(n2, l2, contents)
    requires i1 < |n1| && i2 < |n2| && l1.paths[i1] == l2.paths[i2]
    ensures Collect(n1, i1) == Collect(n2, i2)
    decreases |n1| - i1 + |n2| - i2, TRIE_SIZE + 1
  {
    OwnWord(n1, l1, contents, i1);
    OwnWord(n2, l2, contents, i2);
    CollectFromSameContents(n1, l1, n2, l2, contents, i1, i2, 0);
  }

  lemma {:induction false} CollectFromSameContents(n1: seq<Node>, l1: Layout, n2: seq<Node>, l2: Layout,
                                                   contents: map<seq<Key>, string>, i1: nat, i2: nat, k: nat)
    requires Wf(n1, l1, contents) && Wf(n2, l2, contents)
    requires i1 < |n1| && i2 < |n2| && l1.paths[i1] == l2.paths[i2] && k <= TRIE_SIZE
    ensures CollectFrom(n1, i1, k) == CollectFrom(n2, i2, k)
    decreases |n1| - i1 + |n2| - i2, TRIE_SIZE - k
  {
    if k < TRIE_SIZE {
      CollectFromSameContents(n1, l1, n2, l2, contents, i1, i2, k + 1);
      if k in n1[i1].children && k in n2[i2].children {
        var c1, c2 := n1[i1].children[k], n2[i2].children[k];
        assert l1.paths[c1] == l1.paths[i1] + [k] && l2.paths[c2] == l2.paths[i2] + [k];
        CollectSameContents(n1, l1, n2, l2, contents, c1, c2);
      } else if k in n1[i1].children {
        EmptyBelowSlot(n1, l1, n2, l2, contents, i1, i2, k);
      } else if k in n2[i2].children {
        EmptyBelowSlot(n2, l2, n1, l1, contents, i2, i1, k);
      }
    }
  }

  /**
   * The searches of a well-formed trie depend only on the words it stores:
   * how the arena was built never shows, in the words found or their order.
   */
  lemma LookupByContents(t1: TrieState, t2: TrieState, prefix: string)
    requires Good(t1) && Good(t2) && t1.contents == t2.contents
    ensures Lookup(t1, prefix) == Lookup(t2, prefix)
  {
    var p := KeyPath(prefix);
    if p in t1.layout.index && p in t2.layout.index {
      CollectSameContents(t1.nodes, t1.layout, t2.nodes, t2.layout, t1.contents,
                          t1.layout.index[p], t2.layout.index[p]);
    } else {
      if Lookup(t1, prefix) != [] {
        SearchExactly(t1.nodes, t1.layout, t1.contents, prefix, Lookup(t1, prefix)[0]);
        SearchExactly(t2.nodes, t2.layout, t2.contents, prefix, Lookup(t1, prefix)[0]);
      }
      if Lookup(t2, prefix) != [] {
        SearchExactly(t1.nodes, t1.layout, t1.contents, prefix, Lookup(t2, prefix)[0]);
        SearchExactly(t2.nodes, t2.layout, t2.contents, prefix, Lookup(t2, prefix)[0]);
      }
    }
  }

  class Trie {
    var nodes: seq<Node>
    ghost var layout: Layout
    ghost var Contents: map<seq<Key>, string>

    ghost predicate Valid()
      reads this
    {
      Wf(nodes, layout, Contents)
    }

    ghost function Snapshot(): TrieState
      reads this
    {
      TrieState(nodes, layout, Contents)
    }

    /** `Trie::new`: a root with no children and no word. */
    constructor ()
      ensures Valid()
      ensures Contents == map[]
      ensures forall p :: p != [] ==> Lookup(Snapshot(), p) == []
    {
      nodes := [Node(map[], None)];
      layout := Layout([[]], [0], map[[] := 0]);
      Contents := map[];
    }

    /**
     * `Trie::insert`: walk the word's key path, allocating each missing child,
     * and store the word at the node reached.
     */
    method Insert(word: string)
      requires Valid()
      modifies this
      ensures Valid()
      ensures Contents == old(Contents)[KeyPath(word) := word]
      ensures word in Lookup(Snapshot(), word)
      ensures forall u :: Stores(old(Contents), u) && KeyPath(u) != KeyPath(word) ==> Stores(Contents, u)
      ensures Stores(old(Contents), word) ==> Contents == old(Contents)
    {
      var node := WalkCreating(word);
      StoreWord(nodes, layout, Contents, node, word);
      StoreKeepsOthers(Contents, word);
      nodes := nodes[node := nodes[node].(word := Some(word))];
      Contents := Contents[KeyPath(word) := word];
    }

    /**
     * The walk of `insert`: follow the word's key path from the root,
     * allocating each missing child, to the node at the end of the path.
     */
    method WalkCreating(word: string) returns (node: nat)
      requires Valid()
      modifies this
      ensures Valid() && Contents == old(Contents)
      ensures node < |nodes| && layout.paths[node] == KeyPath(word)
    {
      node := 0;
      var j := 0;
      while j < |word|
        invariant Valid() && Contents == old(Contents)
        invariant j <= |word| && node < |nodes| && layout.paths[node] == KeyPath(word[..j])
      {
        var k := KeyOf(word[j]);
        if k !in nodes[node].children {
          AddChildWf(nodes, layout, Contents, node, k);
          layout := AddChildLayout(layout, node, k);
          nodes := AddChild(nodes, node, k);
        }
        KeyPathSnoc(word, j);
        node := nodes[node].children[k];
        j := j + 1;
      }
      assert word[..j] == word;
    }

    /**
     * `Trie::search_all`: walk the prefix's key path; an unoccupied slot ends
     * the search with no words, otherwise the reached node's subtree is collected.
     */
    method SearchAll(prefix: string) returns (words: seq<string>)
      requires Valid()
      ensures words == Lookup(Snapshot(), prefix)
      ensures forall w :: w in words <==> Matches(Contents, prefix, w)
      ensures KeyPath(prefix) !in layout.index ==> words == []
    {
      var node: nat := 0;
      var j := 0;
      while j < |prefix|
        invariant j <= |prefix| && node < |nodes| && layout.paths[node] == KeyPath(prefix[..j])
      {
        var k := KeyOf(prefix[j]);
        KeyPathSnoc(prefix, j);
        if k !in nodes[node].children {
          MissingSlotEndsSearch(nodes, layout, Contents, node, prefix, j);
          return [];
        }
        node := nodes[node].children[k];
        j := j + 1;
      }
      assert prefix[..j] == prefix;
      words := Collect(nodes, node);
      forall w ensures w in words <==> Matches(Contents, prefix, w) {
        CollectExactly(nodes, layout, Contents, node, w);
      }
    }
  }

  /**
   * When the walk of `prefix` stops at node `i` after `j` characters because the
   * next slot is unoccupied, no node lies on the prefix's path and no stored
   * word matches the prefix.
   */
  lemma MissingSlotEndsSearch(nodes: seq<Node>, l: Layout, contents: map<seq<Key>, string>,
                              i: nat, prefix: string, j: nat)
    requires Wf(nodes, l, contents) && i < |nodes| && j < |prefix|
    requires l.paths[i] == KeyPath(prefix[..j]) && KeyOf(prefix[j]) !in nodes[i].children
    ensures KeyPath(prefix) !in l.index
    ensures forall w :: !Matches(contents, prefix, w)
  {
    var k := KeyOf(prefix[j]);
    assert KeyPath(prefix)[..j + 1] == l.paths[i] + [k];
    if KeyPath(prefix) in l.index {
      PrefixHasNode(nodes, l, contents, KeyPath(prefix), j + 1);
      ChildOfPath(nodes, l, contents, i, k);
    }
    forall w ensures !Matches(contents, prefix, w) {
      NoMatchBelowMissingSlot(nodes, l, contents, i, k, w);
    }
  }
}
