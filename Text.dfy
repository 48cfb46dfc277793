/** String operations the browser and the web pages rely on: prefix tests,
    first-occurrence search, joining and splitting on a separator, removal
    of every occurrence of a character, and ECMAScript's `String.prototype.trim`.
    Strings are sequences of Unicode scalar values. */
module Text {
  import opened Wrappers

  /** `s.startsWith(p)` in both JavaScript and Kotlin. */
  predicate StartsWith(s: string, p: string) {
    |p| <= |s| && s[..|p|] == p
  }

  /** A string that starts with `p` agrees with `p` at each of its indices. */
  lemma StartsWithAt(s: string, p: string, k: nat)
    ensures StartsWith(s, p) && k < |p| ==> s[k] == p[k]
  {
    if StartsWith(s, p) && k < |p| {
      assert s[..|p|][k] == s[k];
    }
  }

  /** Starting with `p + q` is starting with `p`, then `q` right after it. */
  lemma StartsWithConcat(s: string, p: string, q: string)
    ensures StartsWith(s, p + q) ==> StartsWith(s, p) && StartsWith(s[|p|..], q)
  {
    if StartsWith(s, p + q) {
      assert s[..|p|] == s[..|p + q|][..|p|] == (p + q)[..|p|] == p;
      assert s[|p|..][..|q|] == s[..|p + q|][|p|..] == (p + q)[|p|..] == q;
    }
  }

  /** `pat` occurs in `s` at index `k`. */
  predicate OccursAt(s: string, pat: string, k: int) {
    0 <= k && k + |pat| <= |s| && s[k..k + |pat|] == pat
  }

  /** `s.indexOf(pat)`: the first index at which `pat` occurs, or `None` for -1. */
  function IndexOf(s: string, pat: string): (r: Option<nat>)
    ensures r.Some? ==> OccursAt(s, pat, r.value)
    ensures r.Some? ==> forall k :: 0 <= k < r.value ==> !OccursAt(s, pat, k)
    ensures r.None? ==> forall k :: !OccursAt(s, pat, k)
    decreases |s|
  {
    if |s| < |pat| then None
    else if s[..|pat|] == pat then Some(0)
    else
      var tail := IndexOf(s[1..], pat);
      assert forall k :: 1 <= k ==> (OccursAt(s, pat, k) <==> OccursAt(s[1..], pat, k - 1)) by {
        forall k | 1 <= k ensures OccursAt(s, pat, k) <==> OccursAt(s[1..], pat, k - 1) {
          if k + |pat| <= |s| {
            SliceShift(s, k, |pat|);
          }
        }
      }
      match tail
      case None => None
      case Some(i) => Some(i + 1)
  }

  /** Dropping the first character shifts every later slice by one. */
  lemma SliceShift(s: string, k: nat, n: nat)
    requires 1 <= k && k + n <= |s|
    ensures s[1..][k - 1..k - 1 + n] == s[k..k + n]
  {
  }

  /** `items.join(sep)` (JavaScript) / `joinToString(sep)` (Kotlin). */
  function Join(items: seq<string>, sep: string): string
  {
    if items == [] then ""
    else if |items| == 1 then items[0]
    else items[0] + sep + Join(items[1..], sep)
  }

  /** Appending an item extends the joined text by one separator and the item. */
  lemma {:induction false} JoinSnoc(items: seq<string>, x: string, sep: string)
    requires items != []
    ensures Join(items + [x], sep) == Join(items, sep) + sep + x
    decreases |items|
  {
    if |items| == 1 {
      assert (items + [x])[1..] == [x];
    } else {
      assert (items + [x])[1..] == items[1..] + [x];
      JoinSnoc(items[1..], x, sep);
    }
  }

  /** The joined text is as long as its items plus one separator between each two. */
  function TotalLength(items: seq<string>): nat {
    if items == [] then 0 else |items[0]| + TotalLength(items[1..])
  }

  lemma {:induction false} JoinLength(items: seq<string>, sep: string)
    requires items != []
    ensures |Join(items, sep)| == TotalLength(items) + (|items| - 1) * |sep|
    decreases |items|
  {
    if |items| > 1 {
      JoinLength(items[1..], sep);
    }
  }

  /** `s.split(c)` for a one-character separator: the maximal pieces of `s`
      between occurrences of `c`. Splitting the empty string gives `[""]`. */
  function Split(s: string, c: char): (r: seq<string>)
    ensures |r| >= 1
    ensures forall i :: 0 <= i < |r| ==> c !in r[i]
    decreases |s|
  {
    match IndexOf(s, [c])
    case None =>
      assert forall k :: 0 <= k < |s| ==> s[k] != c by {
        forall k | 0 <= k < |s| ensures s[k] != c {
          assert !OccursAt(s, [c], k);
          assert s[k..k + 1] == [s[k]];
        }
      }
      [s]
    case Some(i) =>
      assert forall k :: 0 <= k < i ==> s[k] != c by {
        forall k | 0 <= k < i ensures s[k] != c {
          assert !OccursAt(s, [c], k);
          assert s[k..k + 1] == [s[k]];
        }
      }
      [s[..i]] + Split(s[i + 1..], c)
  }

  /** One step of the split: the piece before the first separator, then the
      split of the rest. */
  lemma SplitStep(s: string, c: char, i: nat)
    requires IndexOf(s, [c]) == Some(i)
    ensures i < |s| && s[i] == c
    ensures Split(s, c) == [s[..i]] + Split(s[i + 1..], c)
  {
    assert s[i..i + 1] == [c];
  }

  /** Joining the pieces of a split with the separator gives back the
      original text. */
  lemma {:induction false} JoinSplit(s: string, c: char)
    ensures Join(Split(s, c), [c]) == s
    decreases |s|
  {
    match IndexOf(s, [c])
    case None =>
      assert Split(s, c) == [s];
    case Some(i) =>
      SplitStep(s, c, i);
      var rest := s[i + 1..];
      JoinSplit(rest, c);
      var parts := Split(s, c);
      assert parts[0] == s[..i] && parts[1..] == Split(rest, c);
      assert |parts| > 1;
      assert Join(parts, [c]) == s[..i] + [c] + Join(Split(rest, c), [c]);
      assert s == s[..i] + [c] + rest;
  }

  /** The first occurrence of a one-character pattern sits right after a
      prefix that lacks the character. */
  lemma {:induction false} IndexOfAfterFree(a: string, c: char, t: string)
    requires c !in a
    ensures IndexOf(a + [c] + t, [c]) == Some(|a|)
  {
    var s := a + [c] + t;
    assert s[|a|..|a| + 1] == [c];
    assert OccursAt(s, [c], |a|);
    forall k | 0 <= k < |a| ensures !OccursAt(s, [c], k) {
      assert s[k..k + 1] == [a[k]];
    }
  }

  /** A character that does not occur is not found. */
  lemma IndexOfAbsent(s: string, c: char)
    requires c !in s
    ensures IndexOf(s, [c]) == None
  {
    forall k ensures !OccursAt(s, [c], k) {
      if 0 <= k && k + 1 <= |s| {
        assert s[k..k + 1] == [s[k]];
      }
    }
  }

  /** Splitting on `c` recovers a non-empty list joined with `c`, as long as
      no item contains `c` itself. */
  lemma {:induction false} SplitJoin(items: seq<string>, c: char)
    requires |items| >= 1
    requires forall i :: 0 <= i < |items| ==> c !in items[i]
    ensures Split(Join(items, [c]), c) == items
  {
    assert c !in items[0];
    if |items| == 1 {
      assert Join(items, [c]) == items[0];
      IndexOfAbsent(items[0], c);
    } else {
      var rest := Join(items[1..], [c]);
      assert Join(items, [c]) == items[0] + [c] + rest;
      IndexOfAfterFree(items[0], c, rest);
      var s := items[0] + [c] + rest;
      assert s[..|items[0]|] == items[0];
      assert s[|items[0]| + 1..] == rest;
      SplitJoin(items[1..], c);
      assert items == [items[0]] + items[1..];
    }
  }

  /** `s.replace(c.toString(), "")`: every occurrence of `c` deleted, the
      other characters kept in order. */
  function RemoveAll(s: string, c: char): (r: string)
    ensures c !in r
    ensures |r| <= |s|
    ensures forall x :: x != c ==> multiset(r)[x] == multiset(s)[x]
    ensures c !in s ==> r == s
  {
    if s == [] then []
    else
      assert s == [s[0]] + s[1..];
      (if s[0] == c then [] else [s[0]]) + RemoveAll(s[1..], c)
  }

  /** Deleting every occurrence works piece by piece. */
  lemma {:induction false} RemoveAllAppend(a: string, b: string, c: char)
    ensures RemoveAll(a + b, c) == RemoveAll(a, c) + RemoveAll(b, c)
  {
    if a != [] {
      assert (a + b)[1..] == a[1..] + b;
      RemoveAllAppend(a[1..], b, c);
    } else {
      assert a + b == b;
    }
  }

  /** The characters ECMAScript's `String.prototype.trim` removes: the
      WhiteSpace code points (tab, vertical tab, form feed, the space
      separators of Unicode category Zs, the byte order mark) and the
      LineTerminator code points (line feed, carriage return, U+2028, U+2029). */
  predicate IsJsSpace(c: char) {
    || c == '\t' || c == '\n' || c == '\U{000B}' || c == '\U{000C}' || c == '\r'
    || c == ' ' || c == '\U{00A0}' || c == '\U{1680}'
    || ('\U{2000}' <= c <= '\U{200A}')
    || c == '\U{2028}' || c == '\U{2029}' || c == '\U{202F}' || c == '\U{205F}'
    || c == '\U{3000}' || c == '\U{FEFF}'
  }

  /** `s` consists of whitespace only. */
  predicate AllJsSpace(s: string) {
    forall k :: 0 <= k < |s| ==> IsJsSpace(s[k])
  }

  /** `s` neither starts nor ends with whitespace. */
  predicate NoSpaceAtEnds(s: string) {
    s != [] ==> !IsJsSpace(s[0]) && !IsJsSpace(s[|s| - 1])
  }

  /** Whitespace removed from the front: what remains is a suffix of `s`
      that does not start with whitespace, and only whitespace was removed. */
  function TrimStart(s: string): (r: string)
    ensures |r| <= |s| && r == s[|s| - |r|..]
    ensures forall k :: 0 <= k < |s| - |r| ==> IsJsSpace(s[k])
    ensures r != [] ==> !IsJsSpace(r[0])
  {
    if s != [] && IsJsSpace(s[0]) then
      var r := TrimStart(s[1..]);
      assert s[1..][|s| - 1 - |r|..] == s[|s| - |r|..];
      assert forall k :: 1 <= k < |s| - |r| ==> s[k] == s[1..][k - 1];
      r
    else s
  }

  /** Whitespace removed from the back: what remains is a prefix of `s`
      that does not end with whitespace, and only whitespace was removed. */
  function TrimEnd(s: string): (r: string)
    ensures |r| <= |s| && r == s[..|r|]
    ensures forall k :: |r| <= k < |s| ==> IsJsSpace(s[k])
    ensures r != [] ==> !IsJsSpace(r[|r| - 1])
  {
    if s != [] && IsJsSpace(s[|s| - 1]) then
      var r := TrimEnd(s[..|s| - 1]);
      assert s[..|s| - 1][..|r|] == s[..|r|];
      r
    else s
  }

  /** `s.trim()`: the slice of `s` left after removing whitespace from both
      ends; it has whitespace at neither end, and it is empty exactly when
      `s` consists of whitespace only. */
  function Trim(s: string): (r: string)
    ensures NoSpaceAtEnds(r)
    ensures r == [] <==> AllJsSpace(s)
  {
    TrimBorders(s);
    TrimEnd(TrimStart(s))
  }

  lemma TrimBorders(s: string)
    ensures var r := TrimEnd(TrimStart(s));
      NoSpaceAtEnds(r) && (r == [] <==> AllJsSpace(s))
  {
    TrimEmpty(s);
    var front := TrimStart(s);
    var r := TrimEnd(front);
    if r != [] {
      assert r[0] == front[0];
    }
  }

  /** `t` sits in `s` at index `i`, with nothing but whitespace before and
      after it. */
  predicate TrimmedAt(s: string, i: nat, t: string) {
    && i <= |s| - |t| && t == s[i..][..|t|]
    && (forall k :: 0 <= k < i ==> IsJsSpace(s[k]))
    && (forall k :: i + |t| <= k < |s| ==> IsJsSpace(s[k]))
  }

  /** What `trim` keeps is a contiguous slice of its input, and everything
      it drops before and after that slice is whitespace. */
  lemma TrimSlice(s: string)
    ensures exists i :: TrimmedAt(s, i, Trim(s))
  {
    var front := TrimStart(s);
    var d := |s| - |front|;
    TrimEndShifted(s, d);
    assert TrimmedAt(s, d, Trim(s));
  }

  /** Trimming the back of a suffix of `s` drops only whitespace of `s`. */
  lemma TrimEndShifted(s: string, d: nat)
    requires d <= |s|
    ensures var t := TrimEnd(s[d..]);
      && t == s[d..][..|t|]
      && forall k :: d + |t| <= k < |s| ==> IsJsSpace(s[k])
  {
    var front := s[d..];
    var t := TrimEnd(front);
    forall k | d + |t| <= k < |s| ensures IsJsSpace(s[k]) {
      assert s[k] == front[k - d];
    }
  }

  lemma TrimEmpty(s: string)
    ensures TrimEnd(TrimStart(s)) == [] <==> AllJsSpace(s)
  {
    var front := TrimStart(s);
    var d := |s| - |front|;
    if TrimEnd(front) == [] {
      assert front == [];
    } else {
      assert front != [];
      assert s[d] == front[0];
    }
  }

  /** Trimming twice is trimming once. */
  lemma TrimIdempotent(s: string)
    ensures Trim(Trim(s)) == Trim(s)
  {
    var t := Trim(s);
    if t != [] {
      assert TrimStart(t) == t;
      assert TrimEnd(t) == t;
    }
  }
}
