/** The few JavaScript string and array primitives the application relies on,
    stated over `seq`: truthiness of a nullable string, `indexOf`, `split`,
    `includes`, and the regular expression `/:(.*?);/`. */
module Strings {
  import opened Wrappers

  /** JavaScript truthiness of a `string | null`: present and not the empty string. */
  predicate Truthy(s: Option<string>) {
    s.Some? && s.value != ""
  }

  /** `indexOf` for one element: the first index holding `x`, or `None` (the source's -1). */
  function IndexOf<T(==)>(s: seq<T>, x: T): (r: Option<nat>)
    ensures r.Some? ==> r.value < |s| && s[r.value] == x && x !in s[..r.value]
    ensures r.None? <==> x !in s
  {
    if |s| == 0 then None
    else if s[0] == x then Some(0)
    else match IndexOf(s[1..], x)
      case None => None
      case Some(i) =>
        assert s[..i + 1] == [s[0]] + s[1..][..i];
        Some(i + 1)
  }

  /** Searching past a prefix that lacks `x` shifts the index by the prefix's length. */
  lemma {:induction false} IndexOfAppend<T>(a: seq<T>, b: seq<T>, x: T)
    requires x !in a
    ensures IndexOf(a + b, x) == (match IndexOf(b, x)
                                  case None => None
                                  case Some(i) => Some(|a| + i))
  {
    if |a| > 0 {
      assert (a + b)[1..] == a[1..] + b;
      IndexOfAppend(a[1..], b, x);
    } else {
      assert a + b == b;
    }
  }

  // ---------------------------------------------------------------------------
  // split / join

  /** `String.prototype.split` with a one-character separator: the pieces between separators. */
  function Split(s: string, sep: char): (parts: seq<string>)
    ensures |parts| >= 1
    ensures |parts| == 1 <==> sep !in s
    ensures forall k :: 0 <= k < |parts| ==> sep !in parts[k]
    decreases |s|
  {
    match IndexOf(s, sep)
    case None => [s]
    case Some(i) => [s[..i]] + Split(s[i + 1..], sep)
  }

  /** `Array.prototype.join` with a one-character separator. */
  function Join(parts: seq<string>, sep: char): string {
    if |parts| == 0 then ""
    else if |parts| == 1 then parts[0]
    else parts[0] + [sep] + Join(parts[1..], sep)
  }

  /** Splitting loses nothing: joining the pieces back gives the original string. */
  lemma {:induction false} JoinSplit(s: string, sep: char)
    ensures Join(Split(s, sep), sep) == s
    decreases |s|
  {
    var first := IndexOf(s, sep);
    if first.Some? {
      var i := first.value;
      var head, tail := s[..i], s[i + 1..];
      var rest := Split(tail, sep);
      SplitAt(s, sep, i);
      JoinSplit(tail, sep);
      JoinCons(head, rest, sep);
      Reassemble(s, i);
    }
  }

  /** Splitting at the first separator. */
  lemma SplitAt(s: string, sep: char, i: nat)
    requires IndexOf(s, sep) == Some(i)
    ensures Split(s, sep) == [s[..i]] + Split(s[i + 1..], sep)
  {
  }

  /** A sequence is the part before index `i`, the element at `i` and the part after it. */
  lemma Reassemble<T>(s: seq<T>, i: nat)
    requires i < |s|
    ensures s[..i] + [s[i]] + s[i + 1..] == s
  {
  }

  /** Joining a piece in front of at least one more. */
  lemma JoinCons(a: string, rest: seq<string>, sep: char)
    requires |rest| >= 1
    ensures Join([a] + rest, sep) == a + [sep] + Join(rest, sep)
  {
    assert ([a] + rest)[1..] == rest;
  }

  /** The first piece is everything before the first separator. */
  lemma SplitFirst(a: string, sep: char, b: string)
    requires sep !in a
    ensures Split(a + [sep] + b, sep) == [a] + Split(b, sep)
  {
    var s := a + [sep] + b;
    assert s[..|a|] == a;
    assert s[|a| + 1..] == b;
    assert a == s[..|a|];
  }

  // ---------------------------------------------------------------------------
  // includes

  /** `sub` occurs in `s` starting at index `i`. */
  predicate OccursAt(s: string, sub: string, i: nat) {
    i + |sub| <= |s| && s[i..i + |sub|] == sub
  }

  /** `String.prototype.includes`. */
  predicate Contains(s: string, sub: string) {
    exists i: nat :: i <= |s| - |sub| && OccursAt(s, sub, i)
  }

  /** A string contains each of its prefixes. */
  lemma PrefixContained(sub: string, rest: string)
    ensures Contains(sub + rest, sub)
  {
    assert OccursAt(sub + rest, sub, 0);
  }

  /** If the first character of `sub` never occurs early enough in `head + tail`
      (not at all in `head`, and `tail` is shorter than `sub`), `sub` is not contained. */
  lemma NotContainedWithoutFirstChar(head: string, tail: string, sub: string)
    requires |sub| > 0 && sub[0] !in head && |tail| < |sub|
    ensures !Contains(head + tail, sub)
  {
    var s := head + tail;
    forall i: nat | i <= |s| - |sub|
      ensures !OccursAt(s, sub, i)
    {
      assert s[i] == head[i];
    }
  }

  /** If `sub` is not at the very start of `c + rest` and its first character never occurs
      in `rest`, `sub` is not contained. */
  lemma NotContainedPastStart(c: char, rest: string, sub: string)
    requires |sub| > 1 && sub[0] !in rest && (|rest| == 0 || rest[0] != sub[1])
    ensures !Contains([c] + rest, sub)
  {
    var s := [c] + rest;
    forall i: nat | i <= |s| - |sub|
      ensures !OccursAt(s, sub, i)
    {
      if i == 0 {
        assert s[i..i + |sub|][1] == rest[0];
      } else {
        assert s[i..i + |sub|][0] == rest[i - 1];
      }
    }
  }

  // ---------------------------------------------------------------------------
  // the regular expression /:(.*?);/ and its first capture group

  /** The characters JavaScript's `.` does not match. */
  predicate IsLineTerminator(c: char) {
    c == '\n' || c == '\r' || c == '\U{2028}' || c == '\U{2029}'
  }

  /** The lazy `(.*?);` tried from index `j`: the index of the first `;` at or after `j`,
      unless a line terminator comes first. */
  function LazyToSemicolon(s: string, j: nat): (r: Option<nat>)
    ensures r.Some? ==> j <= r.value < |s| && s[r.value] == ';'
    ensures r.Some? ==> forall k :: j <= k < r.value ==> s[k] != ';' && !IsLineTerminator(s[k])
    decreases |s| - j
  {
    if j >= |s| then None
    else if s[j] == ';' then Some(j)
    else if IsLineTerminator(s[j]) then None
    else LazyToSemicolon(s, j + 1)
  }

  /** The regex engine's leftmost search: try each `:` from index `i` on, and return
      the first capture group of the first attempt that succeeds. */
  function ColonGroupFrom(s: string, i: nat): (r: Option<string>)
    ensures r.Some? ==> ';' !in r.value
    ensures r.Some? ==> forall k :: 0 <= k < |r.value| ==> !IsLineTerminator(r.value[k])
    decreases |s| - i
  {
    if i >= |s| then None
    else if s[i] != ':' then ColonGroupFrom(s, i + 1)
    else match LazyToSemicolon(s, i + 1)
      case Some(j) => Some(s[i + 1..j])
      case None => ColonGroupFrom(s, i + 1)
  }

  /** `s.match(/:(.*?);/)?.[1]`: the first capture group, or `None` when there is no match. */
  function ColonGroup(s: string): (r: Option<string>)
    ensures r.Some? ==> ';' !in r.value
  {
    ColonGroupFrom(s, 0)
  }

  /** The plain reading of the pattern: the text after the first `:` up to the next `;`. */
  function FirstColonToSemicolon(s: string): Option<string> {
    match IndexOf(s, ':')
    case None => None
    case Some(i) =>
      match IndexOf(s[i + 1..], ';')
      case None => None
      case Some(k) => Some(s[i + 1..i + 1 + k])
  }

  /** On a string without line terminators the lazy group from `j` ends at the first `;`. */
  lemma {:induction false} LazyPlain(s: string, j: nat)
    requires j <= |s|
    requires forall k :: j <= k < |s| ==> !IsLineTerminator(s[k])
    ensures LazyToSemicolon(s, j) == (match IndexOf(s[j..], ';')
                                      case None => None
                                      case Some(k) => Some(j + k))
    decreases |s| - j
  {
    if j < |s| && s[j] != ';' {
      LazyPlain(s, j + 1);
      assert s[j..][1..] == s[j + 1..];
    }
  }

  /** With no `;` left, no later `:` can start a match. */
  lemma {:induction false} NoGroupWithoutSemicolon(s: string, i: nat)
    requires i <= |s| && ';' !in s[i..]
    ensures ColonGroupFrom(s, i) == None
    decreases |s| - i
  {
    if i < |s| {
      assert s[i + 1..] == s[i..][1..];
      if s[i] == ':' {
        var r := LazyToSemicolon(s, i + 1);
        if r.Some? {
          assert false;
        }
      }
      NoGroupWithoutSemicolon(s, i + 1);
    }
  }

  /** Positions without a `:` are skipped by the search. */
  lemma {:induction false} SkipToColon(s: string, i: nat, m: nat)
    requires i <= m <= |s|
    requires forall k :: i <= k < m ==> s[k] != ':'
    ensures ColonGroupFrom(s, i) == ColonGroupFrom(s, m)
    decreases m - i
  {
    if i < m {
      SkipToColon(s, i + 1, m);
    }
  }

  /** A match attempt at a `:` with no line terminator after it captures up to the next `;`. */
  lemma GroupAtColon(s: string, i: nat)
    requires i < |s| && s[i] == ':'
    requires forall k :: i < k < |s| ==> !IsLineTerminator(s[k])
    ensures ColonGroupFrom(s, i) == (match IndexOf(s[i + 1..], ';')
                                     case None => None
                                     case Some(k) => Some(s[i + 1..i + 1 + k]))
  {
    LazyPlain(s, i + 1);
    if IndexOf(s[i + 1..], ';').None? {
      NoGroupWithoutSemicolon(s, i + 1);
    }
  }

  /** The search from the start skips to the first `:` and captures from there. */
  lemma GroupAtFirstColon(s: string, i: nat)
    requires i < |s| && s[i] == ':'
    requires forall k :: 0 <= k < i ==> s[k] != ':'
    requires forall k :: i < k < |s| ==> !IsLineTerminator(s[k])
    ensures ColonGroupFrom(s, 0) == (match IndexOf(s[i + 1..], ';')
                                     case None => None
                                     case Some(k) => Some(s[i + 1..i + 1 + k]))
  {
    SkipToColon(s, 0, i);
    GroupAtColon(s, i);
  }

  /** Without a `:` there is no match. */
  lemma NoColonNoGroup(s: string)
    requires ':' !in s
    ensures ColonGroupFrom(s, 0) == None
  {
    SkipToColon(s, 0, |s|);
  }

  /** Without line terminators the regex's capture group is exactly the text after
      the first `:` up to the next `;`, and there is no match when either is missing. */
  lemma ColonGroupPlain(s: string)
    requires forall k :: 0 <= k < |s| ==> !IsLineTerminator(s[k])
    ensures ColonGroup(s) == FirstColonToSemicolon(s)
  {
    var colon := IndexOf(s, ':');
    if colon.None? {
      NoColonNoGroup(s);
    } else {
      var i := colon.value;
      forall k | 0 <= k < i
        ensures s[k] != ':'
      {
        assert s[..i][k] == s[k];
      }
      GroupAtFirstColon(s, i);
    }
  }
}
