/**
 * The parts of Go's `strings` package that the HTML and CSS parsers use, on `seq<char>`:
 * Index, Contains, HasPrefix, Split on a one-character separator, and TrimSpace.
 */
module Strings {
  import opened Wrappers

  /** Go `unicode.IsSpace`, the test TrimSpace trims by. */
  predicate IsSpace(c: char)
  {
    || c == ' ' || c == '\t' || c == '\n' || c == '\r' || c == '\U{000B}' || c == '\U{000C}'
    || c == '\U{0085}' || c == '\U{00A0}' || c == '\U{1680}'
    || ('\U{2000}' <= c <= '\U{200A}')
    || c == '\U{2028}' || c == '\U{2029}' || c == '\U{202F}' || c == '\U{205F}' || c == '\U{3000}'
  }

  predicate HasPrefix(s: string, prefix: string)
  {
    |prefix| <= |s| && s[..|prefix|] == prefix
  }

  /** Go `strings.HasPrefix`: s starts with prefix exactly when s is prefix followed by more. */
  lemma HasPrefixIsConcat(s: string, prefix: string)
    ensures HasPrefix(s, prefix) <==> exists rest :: s == prefix + rest
  {
    if HasPrefix(s, prefix) {
      assert s == prefix + s[|prefix|..];
    }
    if exists rest :: s == prefix + rest {
      var rest :| s == prefix + rest;
      assert s[..|prefix|] == prefix;
    }
  }

  /** sub occurs in s starting at index j. */
  predicate OccursAt(s: string, sub: string, j: nat)
  {
    j <= |s| && HasPrefix(s[j..], sub)
  }

  /** The first index from k on where sub occurs, scanning one position at a time. */
  function IndexFrom(s: string, sub: string, k: nat): (r: Option<nat>)
    requires k <= |s|
    ensures r.Some? ==> k <= r.value && r.value + |sub| <= |s| && OccursAt(s, sub, r.value)
    ensures r.Some? ==> forall j :: k <= j < r.value ==> !OccursAt(s, sub, j)
    ensures r.None? <==> forall j :: k <= j <= |s| ==> !OccursAt(s, sub, j)
    decreases |s| - k
  {
    if |s| - k < |sub| then None
    else if s[k..k + |sub|] == sub then
      assert s[k..][..|sub|] == s[k..k + |sub|];
      assert OccursAt(s, sub, k);
      Some(k)
    else
      assert s[k..][..|sub|] == s[k..k + |sub|];
      IndexFrom(s, sub, k + 1)
  }

  /** Go `strings.Index`: the first index where sub occurs, None for Go's -1. */
  function Index(s: string, sub: string): (r: Option<nat>)
    ensures r.Some? ==> r.value + |sub| <= |s| && OccursAt(s, sub, r.value)
    ensures r.Some? ==> forall j :: 0 <= j < r.value ==> !OccursAt(s, sub, j)
    ensures r.None? <==> forall j :: 0 <= j <= |s| ==> !OccursAt(s, sub, j)
  {
    IndexFrom(s, sub, 0)
  }

  /**
   * Go `strings.Index` with a one-character pattern: the first position of c, or None when c
   * does not occur.
   */
  function IndexOf(s: string, c: char): (r: Option<nat>)
    ensures r.Some? ==> r.value < |s| && s[r.value] == c && forall j :: 0 <= j < r.value ==> s[j] != c
    ensures r.None? <==> forall j :: 0 <= j < |s| ==> s[j] != c
  {
    IndexOfFrom(s, c, 0)
  }

  function IndexOfFrom(s: string, c: char, k: nat): (r: Option<nat>)
    requires k <= |s|
    ensures r.Some? ==> k <= r.value < |s| && s[r.value] == c && forall j :: k <= j < r.value ==> s[j] != c
    ensures r.None? <==> forall j :: k <= j < |s| ==> s[j] != c
    decreases |s| - k
  {
    if k == |s| then None
    else if s[k] == c then Some(k)
    else IndexOfFrom(s, c, k + 1)
  }

  /** A one-character pattern occurs exactly where that character is. */
  lemma OccursChar(s: string, c: char, j: nat)
    ensures OccursAt(s, [c], j) <==> j < |s| && s[j] == c
  {
    if j < |s| {
      assert s[j..][..1] == [s[j]];
    }
  }

  /** The one-character search finds what the general search finds. */
  lemma IndexOfIsIndex(s: string, c: char)
    ensures IndexOf(s, c) == Index(s, [c])
  {
    forall j: nat ensures OccursAt(s, [c], j) <==> j < |s| && s[j] == c {
      OccursChar(s, c, j);
    }
    var a, b := IndexOf(s, c), Index(s, [c]);
    if a.Some? {
      assert OccursAt(s, [c], a.value);
    }
    if b.Some? {
      assert s[b.value] == c;
    }
  }

  /** Go `strings.Contains`. */
  function Contains(s: string, sub: string): (b: bool)
    ensures b <==> exists j :: 0 <= j <= |s| && OccursAt(s, sub, j)
  {
    Index(s, sub).Some?
  }

  /**
   * Go `strings.Split` with a one-character separator: the pieces between the separators,
   * so one more piece than there are separators, and never none.
   */
  function Split(s: string, sep: char): (r: seq<string>)
    ensures |r| >= 1
    ensures forall k :: 0 <= k < |r| ==> sep !in r[k]
    decreases |s|
  {
    if s == [] then [""]
    else
      var rest := Split(s[1..], sep);
      if s[0] == sep then [""] + rest
      else [[s[0]] + rest[0]] + rest[1..]
  }

  /** Go `strings.Join`: the pieces with the separator between each two. */
  function Join(parts: seq<string>, sep: char): string
    requires |parts| >= 1
  {
    if |parts| == 1 then parts[0] else parts[0] + [sep] + Join(parts[1..], sep)
  }

  /** Splitting loses nothing: joining the pieces back gives the string. */
  lemma {:induction false} SplitJoin(s: string, sep: char)
    ensures Join(Split(s, sep), sep) == s
    decreases |s|
  {
    if s != [] {
      var rest := Split(s[1..], sep);
      SplitJoin(s[1..], sep);
      if s[0] == sep {
        assert ([""] + rest)[1..] == rest;
      } else if |rest| == 1 {
      } else {
        var r := [[s[0]] + rest[0]] + rest[1..];
        assert r[1..] == rest[1..];
        assert Join(rest, sep) == rest[0] + [sep] + Join(rest[1..], sep);
      }
      assert s == [s[0]] + s[1..];
    }
  }

  /** A piece without the separator comes back whole, followed by the rest's pieces. */
  lemma {:induction false} SplitPiece(p: string, sep: char, t: string)
    requires sep !in p
    ensures Split(p + [sep] + t, sep) == [p] + Split(t, sep)
    ensures Split(p, sep) == [p]
    decreases |p|
  {
    if p != [] {
      SplitPiece(p[1..], sep, t);
      assert (p + [sep] + t)[1..] == p[1..] + [sep] + t;
      assert [p[0]] + p[1..] == p;
    }
  }

  /** Pieces without the separator are what splitting their join gives back. */
  lemma {:induction false} JoinSplit(parts: seq<string>, sep: char)
    requires |parts| >= 1
    requires forall k :: 0 <= k < |parts| ==> sep !in parts[k]
    ensures Split(Join(parts, sep), sep) == parts
    decreases |parts|
  {
    SplitPiece(parts[0], sep, "");
    if |parts| > 1 {
      JoinSplit(parts[1..], sep);
      SplitPiece(parts[0], sep, Join(parts[1..], sep));
      assert [parts[0]] + parts[1..] == parts;
    }
  }

  /** Splitting at a separator character splits the pieces on both sides of it. */
  lemma {:induction false} SplitAround(p: string, sep: char, t: string)
    ensures Split(p + [sep] + t, sep) == Split(p, sep) + Split(t, sep)
    decreases |p|
  {
    var q := p + [sep] + t;
    if p == [] {
      assert q[1..] == t;
    } else {
      assert q[0] == p[0];
      assert q[1..] == p[1..] + [sep] + t;
      SplitAround(p[1..], sep, t);
      if p[0] != sep {
        var a, b := Split(p[1..], sep), Split(t, sep);
        assert Split(q, sep) == [[p[0]] + (a + b)[0]] + (a + b)[1..];
        assert Split(p, sep) == [[p[0]] + a[0]] + a[1..];
        GlueFirst([p[0]], a, b);
      }
    }
  }

  /** Prefixing the first piece of a + b is prefixing the first piece of a, then adding b. */
  lemma GlueFirst<T>(x: seq<T>, a: seq<seq<T>>, b: seq<seq<T>>)
    requires |a| >= 1
    ensures [x + (a + b)[0]] + (a + b)[1..] == ([x + a[0]] + a[1..]) + b
  {
    assert (a + b)[1..] == a[1..] + b;
  }

  /** One piece, exactly when the separator does not occur. */
  lemma {:induction false} SplitWhole(s: string, sep: char)
    ensures |Split(s, sep)| == 1 <==> sep !in s
    decreases |s|
  {
    if s != [] {
      SplitWhole(s[1..], sep);
      assert s == [s[0]] + s[1..];
    }
  }

  /** Two pieces split at the first separator: the text before it and the text after it. */
  lemma SplitAt(t: string, sep: char, i: nat)
    requires i < |t| && t[i] == sep && sep !in t[..i]
    requires |Split(t, sep)| == 2
    ensures sep !in t[i + 1..]
    ensures Split(t, sep)[0] == t[..i] && Split(t, sep)[1] == t[i + 1..]
  {
    var pre, post := t[..i], t[i + 1..];
    assert t == pre + [sep] + post;
    SplitPiece(pre, sep, post);
    assert |Split(post, sep)| == 1;
    SplitWhole(post, sep);
    SplitPiece(post, sep, "");
  }

  /** The number of pieces is the number of separators plus one. */
  lemma {:induction false} SplitCount(s: string, sep: char)
    ensures |Split(s, sep)| == multiset(s)[sep] + 1
    decreases |s|
  {
    if s != [] {
      SplitCount(s[1..], sep);
      assert s == [s[0]] + s[1..];
      assert multiset(s) == multiset{s[0]} + multiset(s[1..]);
    }
  }

  /** The string without its leading white space. */
  function TrimLeft(s: string): (r: string)
    ensures |r| <= |s| && r == s[|s| - |r|..]
    ensures forall j :: 0 <= j < |s| - |r| ==> IsSpace(s[j])
    ensures r == [] || !IsSpace(r[0])
    decreases |s|
  {
    if s != [] && IsSpace(s[0]) then TrimLeft(s[1..]) else s
  }

  /** The string without its trailing white space. */
  function TrimRight(s: string): (r: string)
    ensures |r| <= |s| && r == s[..|r|]
    ensures forall j :: |r| <= j < |s| ==> IsSpace(s[j])
    ensures r == [] || !IsSpace(r[|r| - 1])
    decreases |s|
  {
    if s != [] && IsSpace(s[|s| - 1]) then TrimRight(s[..|s| - 1]) else s
  }

  /** No white space at either end. */
  predicate Trimmed(s: string)
  {
    s == [] || (!IsSpace(s[0]) && !IsSpace(s[|s| - 1]))
  }

  /**
   * Go `strings.TrimSpace`: the part of s between its leading and its trailing white space;
   * a string of nothing but white space trims to "".
   */
  function TrimSpace(s: string): (r: string)
    ensures Trimmed(r)
    ensures |r| <= |s|
  {
    TrimRight(TrimLeft(s))
  }

  lemma {:induction false} TrimLeftWithin(s: string)
    ensures forall c :: c in TrimLeft(s) ==> c in s
    decreases |s|
  {
    if s != [] && IsSpace(s[0]) {
      TrimLeftWithin(s[1..]);
      assert s == [s[0]] + s[1..];
    }
  }

  lemma {:induction false} TrimRightWithin(s: string)
    ensures forall c :: c in TrimRight(s) ==> c in s
    decreases |s|
  {
    if s != [] && IsSpace(s[|s| - 1]) {
      TrimRightWithin(s[..|s| - 1]);
      assert s == s[..|s| - 1] + [s[|s| - 1]];
    }
  }

  /** Trimming keeps only characters of the string. */
  lemma TrimSpaceWithin(s: string)
    ensures forall c :: c in TrimSpace(s) ==> c in s
  {
    TrimLeftWithin(s);
    TrimRightWithin(TrimLeft(s));
  }

  /** Trimming twice is trimming once. */
  lemma TrimSpaceIdempotent(s: string)
    ensures TrimSpace(TrimSpace(s)) == TrimSpace(s)
  {
    var t := TrimSpace(s);
    TrimmedFixed(t);
  }

  lemma TrimmedFixed(t: string)
    requires Trimmed(t)
    ensures TrimSpace(t) == t
  {
    assert TrimLeft(t) == t;
    assert TrimRight(t) == t;
  }
}
