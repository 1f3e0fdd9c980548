/**
 * The dual-text query buffer (src/query.rs): the text shown to the user and
 * the text sent to the server. They change together, except that Enter adds a
 * line break to the shown text only.
 */
module QueryBuffer {

  /**
   * `r` can be obtained from `v` by deleting characters. Matching proceeds
   * from the end, the side both texts are edited on.
   */
  predicate IsSubsequence(r: string, v: string)
    decreases |v|
  {
    if r == [] then true
    else if v == [] then false
    else if r[|r| - 1] == v[|v| - 1] then IsSubsequence(r[..|r| - 1], v[..|v| - 1])
    else IsSubsequence(r, v[..|v| - 1])
  }

  lemma {:induction false} SubsequenceShorter(r: string, v: string)
    requires IsSubsequence(r, v)
    ensures |r| <= |v|
    decreases |v|
  {
    if r != [] {
      if r[|r| - 1] == v[|v| - 1] {
        SubsequenceShorter(r[..|r| - 1], v[..|v| - 1]);
      } else {
        SubsequenceShorter(r, v[..|v| - 1]);
      }
    }
  }

  lemma {:induction false} SubsequenceReflexive(s: string)
    ensures IsSubsequence(s, s)
    decreases |s|
  {
    if s != [] {
      SubsequenceReflexive(s[..|s| - 1]);
    }
  }

  /** Dropping the last character of `r` keeps it a subsequence. */
  lemma {:induction false} SubsequenceDropLast(r: string, v: string)
    requires r != [] && IsSubsequence(r, v)
    ensures IsSubsequence(r[..|r| - 1], v)
    decreases |v|
  {
    var r' := r[..|r| - 1];
    if r' != [] {
      if r[|r| - 1] == v[|v| - 1] {
        var v' := v[..|v| - 1];
        assert IsSubsequence(r', v');
        if r'[|r'| - 1] == v[|v| - 1] {
          SubsequenceDropLast(r', v');
        }
      } else {
        var v' := v[..|v| - 1];
        SubsequenceDropLast(r, v');
        if r'[|r'| - 1] == v[|v| - 1] {
          SubsequenceDropLast(r', v');
        }
      }
    }
  }

  /** Appending a character to `v` alone keeps `r` a subsequence. */
  lemma SubsequenceExtend(r: string, v: string, c: char)
    requires IsSubsequence(r, v)
    ensures IsSubsequence(r, v + [c])
  {
    assert (v + [c])[..|v|] == v;
    if r != [] && r[|r| - 1] == c {
      SubsequenceDropLast(r, v);
    }
  }

  /** Appending the same character to both keeps the relation. */
  lemma SubsequenceAppendBoth(r: string, v: string, c: char)
    requires IsSubsequence(r, v)
    ensures IsSubsequence(r + [c], v + [c])
  {
    assert (r + [c])[..|r|] == r;
    assert (v + [c])[..|v|] == v;
  }

  /** Dropping the last character of `v`, and of `r` when it has one, keeps the relation. */
  lemma SubsequenceDropBoth(r: string, v: string)
    requires v != [] && IsSubsequence(r, v)
    ensures IsSubsequence(if r == [] then r else r[..|r| - 1], v[..|v| - 1])
  {
    if r != [] && r[|r| - 1] != v[|v| - 1] {
      SubsequenceDropLast(r, v[..|v| - 1]);
    }
  }

  class Query {
    var visibleQuery: string
    var realQuery: string

    /** The sent text is always the shown text with some characters deleted. */
    ghost predicate Valid()
      reads this
    {
      IsSubsequence(realQuery, visibleQuery)
    }

    /** `Query::new`: both texts empty. */
    constructor ()
      ensures Valid()
      ensures visibleQuery == "" && realQuery == ""
    {
      visibleQuery := "";
      realQuery := "";
    }

    /** `handle_char`: the character goes to both texts. */
    method HandleChar(c: char)
      requires Valid()
      modifies this
      ensures Valid()
      ensures visibleQuery == old(visibleQuery) + [c] && realQuery == old(realQuery) + [c]
    {
      SubsequenceAppendBoth(realQuery, visibleQuery, c);
      visibleQuery := visibleQuery + [c];
      realQuery := realQuery + [c];
    }

    /** `handle_enter`: a line break in the shown text only. */
    method HandleEnter()
      requires Valid()
      modifies this
      ensures Valid()
      ensures visibleQuery == old(visibleQuery) + ['\n'] && realQuery == old(realQuery)
    {
      SubsequenceExtend(realQuery, visibleQuery, '\n');
      visibleQuery := visibleQuery + ['\n'];
    }

    /**
     * `handle_backspace`: nothing when the shown text is empty; otherwise the
     * last character of each text goes, the sent text's only if it has one.
     */
    method HandleBackspace()
      requires Valid()
      modifies this
      ensures Valid()
      ensures old(visibleQuery) == [] ==> visibleQuery == [] && realQuery == old(realQuery)
      ensures old(visibleQuery) != [] ==>
                && visibleQuery == old(visibleQuery)[..|old(visibleQuery)| - 1]
                && realQuery == (if old(realQuery) == [] then [] else old(realQuery)[..|old(realQuery)| - 1])
    {
      if visibleQuery == [] {
        return;
      }
      SubsequenceDropBoth(realQuery, visibleQuery);
      visibleQuery := visibleQuery[..|visibleQuery| - 1];
      if realQuery != [] {
        realQuery := realQuery[..|realQuery| - 1];
      }
    }

    /** `set_query`: both texts become `query`. */
    method SetQuery(query: string)
      modifies this
      ensures Valid()
      ensures visibleQuery == query && realQuery == query
    {
      SubsequenceReflexive(query);
      visibleQuery := query;
      realQuery := query;
    }

    /** `clear`: both texts empty. */
    method Clear()
      modifies this
      ensures Valid()
      ensures visibleQuery == "" && realQuery == ""
    {
      visibleQuery := "";
      realQuery := "";
    }

    /** `Display`: the shown text, which holds every character of the sent one, in order. */
    function Display(): (shown: string)
      reads this
      requires Valid()
      ensures IsSubsequence(realQuery, shown) && |realQuery| <= |shown|
    {
      SubsequenceShorter(realQuery, visibleQuery);
      visibleQuery
    }
  }

  /**
   * Typing a character and erasing it again restores both texts.
   */
  method TypeThenErase(s: string, c: char) returns (shown: string, sent: string)
    ensures shown == s && sent == s
  {
    var q := new Query();
    q.SetQuery(s);
    q.HandleChar(c);
    q.HandleBackspace();
    shown, sent := q.visibleQuery, q.realQuery;
  }

  /**
   * After Enter, Backspace removes the shown line break but also the last
   * sent character, which the user still sees: the texts drift apart.
   */
  method BackspaceAfterEnter(c: char) returns (shown: string, sent: string)
    ensures shown == [c] && sent == []
  {
    var q := new Query();
    q.HandleChar(c);
    q.HandleEnter();
    q.HandleBackspace();
    shown, sent := q.Display(), q.realQuery;
  }
}
