/** The JavaScript string operations the parser and the range filter rely on:
    `trim`, `split` on one character, quote deletion, a first-occurrence
    `replace`, and the relational operators on strings. */
module Strings {

  /** The code points ECMAScript counts as WhiteSpace or LineTerminator: what
      `trim`, `parseInt` and `parseFloat` skip. */
  predicate IsSpace(c: char) {
    || c == '\t' || c == '\n' || c == '\U{000B}' || c == '\U{000C}' || c == '\r' || c == ' '
    || c == '\U{00A0}' || c == '\U{1680}' || ('\U{2000}' <= c <= '\U{200A}')
    || c == '\U{2028}' || c == '\U{2029}' || c == '\U{202F}' || c == '\U{205F}'
    || c == '\U{3000}' || c == '\U{FEFF}'
  }

  /** The leading-space removal of `trim` (and of `parseInt`/`parseFloat`). */
  function TrimStart(s: string): (r: string)
    ensures |r| <= |s| && r == s[|s| - |r|..]
    ensures forall i :: 0 <= i < |s| - |r| ==> IsSpace(s[i])
    ensures r != [] ==> !IsSpace(r[0])
  {
    if s != [] && IsSpace(s[0]) then TrimStart(s[1..]) else s
  }

  /** The trailing-space removal of `trim`. */
  function TrimEnd(s: string): (r: string)
    ensures |r| <= |s| && r == s[..|r|]
    ensures forall i :: |r| <= i < |s| ==> IsSpace(s[i])
    ensures r != [] ==> !IsSpace(r[|r| - 1])
  {
    if s != [] && IsSpace(s[|s| - 1]) then TrimEnd(s[..|s| - 1]) else s
  }

  /** `r` is the slice of `s` that starts at `i` and has only spaces
      before and after it in `s`, and no space at either of its own ends. */
  predicate TrimmedSlice(s: string, i: int, r: string) {
    && 0 <= i && i + |r| <= |s| && r == s[i..i + |r|]
    && (forall k :: 0 <= k < i ==> IsSpace(s[k]))
    && (forall k :: i + |r| <= k < |s| ==> IsSpace(s[k]))
    && (r != [] ==> !IsSpace(r[0]) && !IsSpace(r[|r| - 1]))
  }

  /** `String.prototype.trim`: the slice of `s` left after removing every
      space at either end. */
  function Trim(s: string): (r: string)
    ensures TrimmedSlice(s, |s| - |TrimStart(s)|, r)
  {
    TrimSlice(s);
    TrimEnd(TrimStart(s))
  }

  /** Trimming both ends of `s` leaves the slice between the spaces. */
  lemma TrimSlice(s: string)
    ensures TrimmedSlice(s, |s| - |TrimStart(s)|, TrimEnd(TrimStart(s)))
  {
    TrimmedSliceOf(s, TrimStart(s), TrimEnd(TrimStart(s)));
  }

  /** When `t` is `s` without its leading spaces and `r` is `t` without its
      trailing spaces, as `TrimStart` and `TrimEnd` promise, `r` is the
      trimmed slice of `s`. */
  lemma TrimmedSliceOf(s: string, t: string, r: string)
    requires |t| <= |s| && t == s[|s| - |t|..]
    requires forall k :: 0 <= k < |s| - |t| ==> IsSpace(s[k])
    requires t != [] ==> !IsSpace(t[0])
    requires |r| <= |t| && r == t[..|r|]
    requires forall k :: |r| <= k < |t| ==> IsSpace(t[k])
    requires r != [] ==> !IsSpace(r[|r| - 1])
    ensures TrimmedSlice(s, |s| - |t|, r)
  {
    var i := |s| - |t|;
    PrefixOfSuffix(s, i, |r|);
    forall k | i + |r| <= k < |s|
      ensures IsSpace(s[k])
    {
      assert s[k] == t[k - i];
    }
  }

  /** A prefix of a suffix is a slice. */
  lemma PrefixOfSuffix<T>(s: seq<T>, i: nat, n: nat)
    requires i + n <= |s|
    ensures s[i..][..n] == s[i..i + n]
  {
  }

  /** A string with no space at either end is its own trim. */
  lemma TrimOfTrimmed(s: string)
    requires s != [] ==> !IsSpace(s[0]) && !IsSpace(s[|s| - 1])
    ensures Trim(s) == s
  {
  }

  /** `trim` is idempotent. */
  lemma TrimIdempotent(s: string)
    ensures Trim(Trim(s)) == Trim(s)
  {
    TrimOfTrimmed(Trim(s));
  }

  /** The pieces joined back with the separator: the inverse of `Split`. */
  function Join(parts: seq<string>, sep: char): string {
    if |parts| == 0 then []
    else if |parts| == 1 then parts[0]
    else parts[0] + [sep] + Join(parts[1..], sep)
  }

  /** The position of the first `c` in `s`. */
  function IndexOf(s: string, c: char): (i: nat)
    requires c in s
    ensures i < |s| && s[i] == c && c !in s[..i]
  {
    if s[0] == c then 0
    else
      assert s == [s[0]] + s[1..];
      var i := IndexOf(s[1..], c) + 1;
      assert s[..i] == [s[0]] + s[1..][..i - 1];
      i
  }

  /** `s.split(sep)` for a one-character separator: always at least one
      piece, no piece holds the separator, one piece more than there are
      separators, and joining the pieces gives `s` back. */
  function Split(s: string, sep: char): (parts: seq<string>)
    ensures |parts| == multiset(s)[sep] + 1
    ensures forall p <- parts :: sep !in p
    ensures Join(parts, sep) == s
    decreases |s|
  {
    if sep !in s then
      assert multiset(s)[sep] == 0;
      [s]
    else
      var i := IndexOf(s, sep);
      var rest := Split(s[i + 1..], sep);
      assert s == s[..i] + [sep] + s[i + 1..];
      assert multiset(s) == multiset(s[..i]) + multiset([sep]) + multiset(s[i + 1..]);
      [s[..i]] + rest
  }

  /** A string without the separator is one piece. */
  lemma SplitWithoutSep(s: string, sep: char)
    requires sep !in s
    ensures Split(s, sep) == [s]
  {
  }

  /** The first separator ends the first piece. */
  lemma SplitAtFirstSep(p: string, sep: char, t: string)
    requires sep !in p
    ensures Split(p + [sep] + t, sep) == [p] + Split(t, sep)
  {
    var s := p + [sep] + t;
    var i := IndexOf(s, sep);
    assert s[|p|] == sep;
    assert s[..i] == p && s[i + 1..] == t;
  }

  /** Splitting a join of separator-free pieces gives the pieces back. */
  lemma {:induction false} SplitJoin(parts: seq<string>, sep: char)
    requires |parts| >= 1
    requires forall p <- parts :: sep !in p
    ensures Split(Join(parts, sep), sep) == parts
  {
    if |parts| == 1 {
      SplitWithoutSep(parts[0], sep);
    } else {
      SplitJoin(parts[1..], sep);
      SplitAtFirstSep(parts[0], sep, Join(parts[1..], sep));
      assert [parts[0]] + parts[1..] == parts;
    }
  }

  /** Leading whitespace in front of a text is all skipped. */
  lemma {:induction false} TrimStartSpaces(w: string, s: string)
    requires forall i :: 0 <= i < |w| ==> IsSpace(w[i])
    ensures TrimStart(w + s) == TrimStart(s)
  {
    if w != [] {
      assert (w + s)[0] == w[0];
      assert (w + s)[1..] == w[1..] + s;
      TrimStartSpaces(w[1..], s);
    } else {
      assert w + s == s;
    }
  }

  /** `s` with every `c` deleted (`replace(/c/g, '')`). */
  function DeleteAll(s: string, c: char): (r: string)
    ensures c !in r
    ensures multiset(r) == multiset(s)[c := 0]
  {
    if s == [] then []
    else
      assert s == [s[0]] + s[1..];
      if s[0] == c then DeleteAll(s[1..], c) else [s[0]] + DeleteAll(s[1..], c)
  }

  /** Deleting distributes over concatenation, so the order of the kept
      characters is the order in `s`. */
  lemma {:induction false} DeleteAllAppend(a: string, b: string, c: char)
    ensures DeleteAll(a + b, c) == DeleteAll(a, c) + DeleteAll(b, c)
  {
    if a == [] {
      assert a + b == b;
    } else {
      DeleteAllAppend(a[1..], b, c);
      DeleteAllAppendStep(a, b, c);
    }
  }

  /** The induction step of `DeleteAllAppend`: one more character in front. */
  lemma {:induction false} DeleteAllAppendStep(a: string, b: string, c: char)
    requires a != []
    requires DeleteAll(a[1..] + b, c) == DeleteAll(a[1..], c) + DeleteAll(b, c)
    ensures DeleteAll(a + b, c) == DeleteAll(a, c) + DeleteAll(b, c)
  {
    ConsAppend(a, b);
    DeleteAllStep(a, c);
    DeleteAllStep(a + b, c);
    AppendAssociative(if a[0] == c then [] else [a[0]], DeleteAll(a[1..], c), DeleteAll(b, c));
  }

  /** The head and tail of a concatenation with a non-empty front. */
  lemma ConsAppend<T>(a: seq<T>, b: seq<T>)
    requires a != []
    ensures (a + b)[0] == a[0] && (a + b)[1..] == a[1..] + b
  {
  }

  /** Concatenation is associative. */
  lemma AppendAssociative<T>(x: seq<T>, y: seq<T>, z: seq<T>)
    ensures x + (y + z) == (x + y) + z
  {
  }

  /** One step of `DeleteAll`: the first character goes or stays. */
  lemma DeleteAllStep(s: string, c: char)
    requires s != []
    ensures DeleteAll(s, c) == (if s[0] == c then [] else [s[0]]) + DeleteAll(s[1..], c)
  {
  }

  /** `s.replace(from, to)` with a one-character string pattern: only the
      first occurrence of `from` becomes `to`. */
  function ReplaceFirst(s: string, from: char, to: char): (r: string)
    ensures |r| == |s|
    ensures forall i :: 0 <= i < |s| ==>
      r[i] == if s[i] == from && from !in s[..i] then to else s[i]
  {
    if s == [] then []
    else if s[0] == from then
      [to] + s[1..]
    else
      var r := [s[0]] + ReplaceFirst(s[1..], from, to);
      assert forall i :: 1 <= i < |s| ==> s[..i] == [s[0]] + s[1..][..i - 1];
      r
  }

  /** Only the first occurrence is replaced: what follows it is kept. */
  lemma ReplaceFirstAt(x: string, from: char, to: char, y: string)
    requires from !in x
    ensures ReplaceFirst(x + [from] + y, from, to) == x + [to] + y
  {
    var s := x + [from] + y;
    var r := ReplaceFirst(s, from, to);
    forall i | 0 <= i < |s| ensures r[i] == (x + [to] + y)[i] {
      if i < |x| {
        assert s[i] == x[i];
        assert s[..i] == x[..i];
      } else if i > |x| {
        assert s[..i][|x|] == from;
      }
    }
  }

  /** Without the character there is nothing to replace. */
  lemma ReplaceFirstAbsent(s: string, from: char, to: char)
    requires from !in s
    ensures ReplaceFirst(s, from, to) == s
  {
    var r := ReplaceFirst(s, from, to);
    forall i | 0 <= i < |s| ensures r[i] == s[i] {
      assert s[i] != from;
    }
  }

  /** A prefix without the character is kept, and the replacement happens
      in what follows it. */
  lemma {:induction false} ReplaceFirstAfter(x: string, y: string, from: char, to: char)
    requires from !in x
    ensures ReplaceFirst(x + y, from, to) == x + ReplaceFirst(y, from, to)
  {
    if x != [] {
      var s := x + y;
      assert s[0] == x[0] != from;
      assert s[1..] == x[1..] + y;
      ReplaceFirstAfter(x[1..], y, from, to);
      assert x == [x[0]] + x[1..];
    } else {
      assert x + y == y;
    }
  }

  /** JavaScript's `a <= b` on strings: character by character, a proper
      prefix before its extensions. */
  predicate LexLe(a: string, b: string) {
    if a == [] then true
    else if b == [] then false
    else if a[0] != b[0] then a[0] < b[0]
    else LexLe(a[1..], b[1..])
  }

  lemma {:induction false} LexLeReflexive(a: string)
    ensures LexLe(a, a)
  {
    if a != [] {
      LexLeReflexive(a[1..]);
    }
  }

  lemma {:induction false} LexLeAntisymmetric(a: string, b: string)
    requires LexLe(a, b) && LexLe(b, a)
    ensures a == b
  {
    if a != [] && b != [] {
      LexLeAntisymmetric(a[1..], b[1..]);
      assert a == [a[0]] + a[1..] && b == [b[0]] + b[1..];
    }
  }

  lemma {:induction false} LexLeTransitive(a: string, b: string, c: string)
    requires LexLe(a, b) && LexLe(b, c)
    ensures LexLe(a, c)
  {
    if a != [] && b != [] && c != [] && a[0] == b[0] == c[0] {
      LexLeTransitive(a[1..], b[1..], c[1..]);
    }
  }

  lemma {:induction false} LexLeTotal(a: string, b: string)
    ensures LexLe(a, b) || LexLe(b, a)
  {
    if a != [] && b != [] && a[0] == b[0] {
      LexLeTotal(a[1..], b[1..]);
    }
  }

  /** Comparing two strings whose first parts have the same length: the first
      parts decide unless they are equal. */
  lemma {:induction false} LexLeConcat(a1: string, a2: string, b1: string, b2: string)
    requires |a1| == |b1|
    ensures LexLe(a1 + a2, b1 + b2) == if a1 == b1 then LexLe(a2, b2) else LexLe(a1, b1)
  {
    if a1 == [] {
      assert a1 + a2 == a2 && b1 + b2 == b2;
    } else {
      assert (a1 + a2)[1..] == a1[1..] + a2 && (b1 + b2)[1..] == b1[1..] + b2;
      LexLeConcat(a1[1..], a2, b1[1..], b2);
      if a1[0] == b1[0] && a1[1..] == b1[1..] {
        assert a1 == [a1[0]] + a1[1..] && b1 == [b1[0]] + b1[1..];
      }
    }
  }

  /** Strings of one character compare as those characters. */
  lemma LexLeSingle(c: char, d: char)
    ensures LexLe([c], [d]) <==> c <= d
  {
    assert [c][1..] == [] && [d][1..] == [];
  }
}
