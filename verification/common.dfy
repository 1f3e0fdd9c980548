/** Small value types and the string predicates the shell relies on. */
module Common {

  datatype Option<T> = None | Some(value: T)

  /** `p` is a prefix of `s` (Rust's `starts_with`). */
  predicate IsPrefix<T(==)>(p: seq<T>, s: seq<T>) {
    |p| <= |s| && s[..|p|] == p
  }

  /** Unicode White_Space, the set Rust's `char::is_whitespace` tests. */
  predicate IsWhitespace(c: char) {
    c == ' ' || ('\t' <= c <= '\r') || c == '\U{85}' || c == '\U{A0}' || c == '\U{1680}'
    || ('\U{2000}' <= c <= '\U{200A}') || c == '\U{2028}' || c == '\U{2029}'
    || c == '\U{202F}' || c == '\U{205F}' || c == '\U{3000}'
  }

  /** Drops leading whitespace (`str::trim_start`). */
  function TrimStart(s: string): (r: string)
    ensures IsSuffixOf(r, s)
    ensures r == [] || !IsWhitespace(r[0])
    ensures AllWhitespace(s[..|s| - |r|])
  {
    if s != [] && IsWhitespace(s[0]) then TrimStart(s[1..]) else s
  }

  /** Drops trailing whitespace (`str::trim_end`). */
  function TrimEnd(s: string): (r: string)
    ensures IsPrefix(r, s)
    ensures r == [] || !IsWhitespace(r[|r| - 1])
    ensures AllWhitespace(s[|r|..])
  {
    if s != [] && IsWhitespace(s[|s| - 1]) then TrimEnd(s[..|s| - 1]) else s
  }

  /** `str::trim`: both ends. */
  function Trim(s: string): (r: string)
    ensures r == [] || (!IsWhitespace(r[0]) && !IsWhitespace(r[|r| - 1]))
  {
    TrimEnd(TrimStart(s))
  }

  predicate IsSuffixOf<T(==)>(r: seq<T>, s: seq<T>) {
    |r| <= |s| && s[|s| - |r|..] == r
  }

  /** Every character is whitespace. */
  predicate AllWhitespace(s: string) {
    forall i :: 0 <= i < |s| ==> IsWhitespace(s[i])
  }

  lemma {:induction false} TrimStartPadded(a: string, x: string)
    requires AllWhitespace(a)
    ensures TrimStart(a + x) == TrimStart(x)
    decreases |a|
  {
    if a != [] {
      assert (a + x)[1..] == a[1..] + x;
      TrimStartPadded(a[1..], x);
    } else {
      assert a + x == x;
    }
  }

  lemma {:induction false} TrimEndPadded(x: string, b: string)
    requires AllWhitespace(b)
    ensures TrimEnd(x + b) == TrimEnd(x)
    decreases |b|
  {
    if b != [] {
      assert (x + b)[..|x + b| - 1] == x + b[..|b| - 1];
      TrimEndPadded(x, b[..|b| - 1]);
    } else {
      assert x + b == x;
    }
  }

  lemma {:induction false} TrimAppended(s: string, b: string)
    requires AllWhitespace(b)
    ensures TrimEnd(TrimStart(s + b)) == TrimEnd(TrimStart(s))
    decreases |s|
  {
    if s == [] {
      assert s + b == b + [];
      TrimStartPadded(b, []);
    } else if IsWhitespace(s[0]) {
      assert (s + b)[1..] == s[1..] + b;
      TrimAppended(s[1..], b);
    } else {
      TrimEndPadded(s, b);
    }
  }

  /** Whitespace added around a line is removed again by trimming. */
  lemma TrimPadded(a: string, s: string, b: string)
    requires AllWhitespace(a) && AllWhitespace(b)
    ensures Trim(a + s + b) == Trim(s)
  {
    var u := a + (s + b);
    Associative(a, s, b);
    TrimStartPadded(a, s + b);
    TrimAppended(s, b);
    PaddedTrim(u, s + b, s);
  }

  /** Concatenation is associative (kept apart so callers do not carry the proof context). */
  lemma Associative<T>(a: seq<T>, b: seq<T>, c: seq<T>)
    ensures a + b + c == a + (b + c)
  {
  }

  /** A prefix one longer is the shorter prefix and the next element. */
  lemma TakeSnoc<T>(s: seq<T>, r: nat)
    requires r < |s|
    ensures s[..r + 1] == s[..r] + [s[r]]
  {
  }

  lemma PaddedTrim(u: string, v: string, s: string)
    requires TrimStart(u) == TrimStart(v)
    requires TrimEnd(TrimStart(v)) == TrimEnd(TrimStart(s))
    ensures Trim(u) == Trim(s)
  {
  }

  lemma TrimIdempotent(s: string)
    ensures Trim(Trim(s)) == Trim(s)
  {
  }
}
