/**
 * The JavaScript string operations the store and the command parser rely on:
 * `toLowerCase`, `trim`, `includes`, `indexOf` and `split` with a string
 * separator, over strings as sequences of characters.
 */
module Text {
  import opened Wrappers

  // ---------------------------------------------------------------- case

  /** Lower-case of one character; letters outside A-Z are left as they are. */
  function LowerChar(c: char): char {
    if 'A' <= c <= 'Z' then (c as int + ('a' as int - 'A' as int)) as char else c
  }

  /** `String.prototype.toLowerCase`, character by character. */
  function Lower(s: string): (r: string)
    ensures |r| == |s|
    ensures forall i :: 0 <= i < |s| ==> r[i] == LowerChar(s[i])
    ensures forall i :: 0 <= i < |r| ==> !('A' <= r[i] <= 'Z')
  {
    if s == [] then [] else [LowerChar(s[0])] + Lower(s[1..])
  }

  lemma LowerIdempotent(s: string)
    ensures Lower(Lower(s)) == Lower(s)
  {
  }

  lemma LowerAppend(a: string, b: string)
    ensures Lower(a + b) == Lower(a) + Lower(b)
  {
  }

  // ---------------------------------------------------------------- trim

  /** The characters `trim` removes: ECMAScript WhiteSpace and LineTerminator. */
  predicate IsWhitespace(c: char) {
    || c == '\t' || c == '\n' || c == '\U{B}' || c == '\U{C}' || c == '\r' || c == ' '
    || c == '\U{A0}' || c == '\U{1680}' || ('\U{2000}' <= c <= '\U{200A}')
    || c == '\U{2028}' || c == '\U{2029}' || c == '\U{202F}' || c == '\U{205F}'
    || c == '\U{3000}' || c == '\U{FEFF}'
  }

  predicate AllWhitespace(s: string) {
    forall i :: 0 <= i < |s| ==> IsWhitespace(s[i])
  }

  /** Drops the leading whitespace. */
  function TrimStart(s: string): (r: string)
    ensures |r| <= |s|
  {
    if s != [] && IsWhitespace(s[0]) then TrimStart(s[1..]) else s
  }

  /** `TrimStart` keeps a suffix, drops only whitespace, and stops at the first other character. */
  lemma {:induction false} TrimStartDropsWhitespace(s: string)
    ensures var r := TrimStart(s);
      && r == s[|s| - |r|..]
      && AllWhitespace(s[..|s| - |r|])
      && (r == [] || !IsWhitespace(r[0]))
  {
    if s != [] && IsWhitespace(s[0]) {
      TrimStartDropsWhitespace(s[1..]);
      var r := TrimStart(s[1..]);
      var dropped := s[..|s| - |r|];
      assert forall i :: 1 <= i < |dropped| ==> dropped[i] == s[1..][..|s| - 1 - |r|][i - 1];
    }
  }

  /** Drops the trailing whitespace. */
  function TrimEnd(s: string): (r: string)
    ensures |r| <= |s|
  {
    if s != [] && IsWhitespace(s[|s| - 1]) then TrimEnd(s[..|s| - 1]) else s
  }

  /** `TrimEnd` keeps a prefix, drops only whitespace, and stops at the last other character. */
  lemma {:induction false} TrimEndDropsWhitespace(s: string)
    ensures var r := TrimEnd(s);
      && r == s[..|r|]
      && AllWhitespace(s[|r|..])
      && (r == [] || !IsWhitespace(r[|r| - 1]))
  {
    if s != [] && IsWhitespace(s[|s| - 1]) {
      TrimEndDropsWhitespace(s[..|s| - 1]);
      var r := TrimEnd(s[..|s| - 1]);
      var dropped := s[|r|..];
      assert forall i :: 0 <= i < |dropped| - 1 ==> dropped[i] == s[..|s| - 1][|r|..][i];
    }
  }

  /** `String.prototype.trim`: a slice of `s` with neither leading nor trailing whitespace. */
  function Trim(s: string): (r: string)
    ensures |r| <= |s|
    ensures r == [] || (!IsWhitespace(r[0]) && !IsWhitespace(r[|r| - 1]))
  {
    TrimStartDropsWhitespace(s);
    TrimEndDropsWhitespace(TrimStart(s));
    TrimEnd(TrimStart(s))
  }

  /**
   * `trim` cuts `s` into whitespace, the result, and whitespace: together with
   * the ends of the result not being whitespace, this fixes the result.
   */
  lemma TrimKeepsCore(s: string)
    ensures exists i, j :: 0 <= i <= j <= |s| && Trim(s) == s[i..j] && AllWhitespace(s[..i]) && AllWhitespace(s[j..])
  {
    TrimStartDropsWhitespace(s);
    var t := TrimStart(s);
    TrimEndDropsWhitespace(t);
    var r := TrimEnd(t);
    var i := |s| - |t|;
    var j := i + |r|;
    assert r == s[i..j];
    assert s[j..] == t[|r|..];
  }

  /** Lower-casing leaves whitespace as it is. */
  lemma {:induction false} LowerKeepsWhitespace(w: string)
    requires AllWhitespace(w)
    ensures Lower(w) == w
  {
    if w != [] {
      assert AllWhitespace(w[1..]) by {
        forall i | 0 <= i < |w| - 1 ensures IsWhitespace(w[1..][i]) { assert w[1..][i] == w[i + 1]; }
      }
      LowerKeepsWhitespace(w[1..]);
      assert w == [w[0]] + w[1..];
    }
  }

  lemma {:induction false} TrimStartPadded(w: string, y: string)
    requires AllWhitespace(w)
    ensures TrimStart(w + y) == TrimStart(y)
  {
    if w != [] {
      assert (w + y)[0] == w[0] && IsWhitespace(w[0]);
      assert (w + y)[1..] == w[1..] + y;
      assert AllWhitespace(w[1..]) by {
        forall i | 0 <= i < |w| - 1 ensures IsWhitespace(w[1..][i]) { assert w[1..][i] == w[i + 1]; }
      }
      TrimStartPadded(w[1..], y);
    } else {
      assert w + y == y;
    }
  }

  lemma {:induction false} TrimStartAppend(x: string, z: string)
    requires !AllWhitespace(x)
    ensures TrimStart(x + z) == TrimStart(x) + z
  {
    assert (x + z)[0] == x[0];
    if IsWhitespace(x[0]) {
      assert (x + z)[1..] == x[1..] + z;
      assert !AllWhitespace(x[1..]) by {
        var i :| 0 <= i < |x| && !IsWhitespace(x[i]);
        assert x[1..][i - 1] == x[i];
      }
      TrimStartAppend(x[1..], z);
    }
  }

  lemma {:induction false} TrimEndPadded(y: string, w: string)
    requires AllWhitespace(w)
    ensures TrimEnd(y + w) == TrimEnd(y)
    decreases |w|
  {
    if w != [] {
      assert (y + w)[|y + w| - 1] == w[|w| - 1];
      assert (y + w)[..|y + w| - 1] == y + w[..|w| - 1];
      assert AllWhitespace(w[..|w| - 1]) by {
        forall i | 0 <= i < |w| - 1 ensures IsWhitespace(w[i]) { }
      }
      TrimEndPadded(y, w[..|w| - 1]);
    } else {
      assert y + w == y;
    }
  }

  lemma AllWhitespaceTrimsAway(w: string)
    requires AllWhitespace(w)
    ensures TrimStart(w) == []
  {
    TrimStartPadded(w, []);
    assert w + [] == w;
  }

  /** A string without whitespace at either end is its own trim. */
  lemma TrimUnpadded(x: string)
    requires x == [] || (!IsWhitespace(x[0]) && !IsWhitespace(x[|x| - 1]))
    ensures Trim(x) == x
  {
  }

  lemma DropConcat(a: string, b: string, c: string, i: nat)
    requires i <= |b|
    ensures (a + b + c)[|a| + i..] == b[i..] + c
  {
  }

  /** A slice made of one whitespace character and an unpadded rest trims to that rest. */
  lemma TrimOneSpace(s: string, i: nat, j: nat)
    requires i + 1 < j <= |s| && IsWhitespace(s[i])
    requires !IsWhitespace(s[i + 1]) && !IsWhitespace(s[j - 1])
    ensures Trim(s[i..j]) == s[i + 1..j]
  {
    var x, rest := s[i..j], s[i + 1..j];
    assert x[1..] == rest && x[0] == s[i];
    assert rest[0] == s[i + 1] && rest[|rest| - 1] == s[j - 1];
    assert TrimStart(x) == TrimStart(rest) == rest;
    assert TrimEnd(rest) == rest;
  }

  /** `TrimOneSpace` for a suffix: one leading whitespace character is all there is to trim. */
  lemma TrimOneSpaceToEnd(s: string, i: nat)
    requires i + 1 < |s| && IsWhitespace(s[i])
    requires !IsWhitespace(s[i + 1]) && !IsWhitespace(s[|s| - 1])
    ensures Trim(s[i..]) == s[i + 1..]
  {
    TrimOneSpace(s, i, |s|);
    assert s[i..|s|] == s[i..] && s[i + 1..|s|] == s[i + 1..];
  }

  /** Whitespace around a string does not change what `trim` returns. */
  lemma TrimIgnoresPadding(w1: string, x: string, w2: string)
    requires AllWhitespace(w1) && AllWhitespace(w2)
    ensures Trim(w1 + x + w2) == Trim(x)
  {
    assert w1 + x + w2 == w1 + (x + w2);
    TrimStartPadded(w1, x + w2);
    assert TrimStart(w1 + x + w2) == TrimStart(x + w2);
    if AllWhitespace(x) {
      TrimStartPadded(x, w2);
      AllWhitespaceTrimsAway(w2);
      AllWhitespaceTrimsAway(x);
    } else {
      TrimStartAppend(x, w2);
      TrimEndPadded(TrimStart(x), w2);
    }
  }

  // ---------------------------------------------------------------- search

  /** `sep` occurs in `s` starting at index `i`. */
  predicate OccursAt(s: string, sep: string, i: int) {
    0 <= i && i + |sep| <= |s| && s[i..i + |sep|] == sep
  }

  /** `s.indexOf(sep, from)`: the first index at or after `from` where `sep` occurs. */
  function IndexOfFrom(s: string, sep: string, from: nat): (r: Option<nat>)
    ensures r.Some? ==> from <= r.value && OccursAt(s, sep, r.value)
    decreases |s| - from
  {
    if |s| < from + |sep| then None
    else if s[from..from + |sep|] == sep then Some(from)
    else IndexOfFrom(s, sep, from + 1)
  }

  /**
   * `indexOf` finds the first occurrence: there is none between `from` and
   * the index it returns, and none at all at or after `from` when it returns
   * nothing.
   */
  lemma {:induction false} IndexOfFromIsFirst(s: string, sep: string, from: nat)
    ensures IndexOfFrom(s, sep, from).Some? ==>
      forall j :: from <= j < IndexOfFrom(s, sep, from).value ==> !OccursAt(s, sep, j)
    ensures IndexOfFrom(s, sep, from).None? ==> forall j :: from <= j ==> !OccursAt(s, sep, j)
    decreases |s| - from
  {
    if |s| < from + |sep| {
    } else if s[from..from + |sep|] == sep {
    } else {
      IndexOfFromIsFirst(s, sep, from + 1);
    }
  }

  /** `indexOf` from `from` stops at `k` when `sep` occurs there and nowhere in between. */
  lemma {:induction false} IndexOfFromFinds(s: string, sep: string, from: nat, k: nat)
    requires from <= k && OccursAt(s, sep, k)
    requires forall j :: from <= j < k ==> !OccursAt(s, sep, j)
    ensures IndexOfFrom(s, sep, from) == Some(k)
    decreases k - from
  {
    if from < k {
      assert !OccursAt(s, sep, from);
      IndexOfFromFinds(s, sep, from + 1, k);
    }
  }

  /** `s.indexOf(sep)`. */
  function IndexOf(s: string, sep: string): Option<nat> {
    IndexOfFrom(s, sep, 0)
  }

  /** `String.prototype.includes`. */
  predicate Includes(s: string, sep: string) {
    IndexOf(s, sep).Some?
  }

  lemma IncludesIff(s: string, sep: string)
    ensures Includes(s, sep) <==> exists j :: OccursAt(s, sep, j)
  {
    IndexOfFromIsFirst(s, sep, 0);
  }

  // ---------------------------------------------------------------- split

  /**
   * The pieces of `s[from..]` that `split` produces: the text up to the next
   * occurrence of `sep`, then the pieces after that occurrence.
   */
  function SplitFrom(s: string, sep: string, from: nat): (parts: seq<string>)
    requires sep != [] && from <= |s|
    ensures |parts| >= 1
    decreases |s| - from
  {
    match IndexOfFrom(s, sep, from)
    case None => [s[from..]]
    case Some(i) => [s[from..i]] + SplitFrom(s, sep, i + |sep|)
  }

  /** `String.prototype.split` with a non-empty string separator. */
  function Split(s: string, sep: string): (parts: seq<string>)
    requires sep != []
    ensures |parts| >= 1
    ensures |parts| == 1 <==> !Includes(s, sep)
  {
    SplitFrom(s, sep, 0)
  }

  /** No occurrence fits inside the text between `from` and the next occurrence. */
  lemma PieceExcludesSeparator(s: string, sep: string, from: nat, i: nat)
    requires sep != [] && IndexOfFrom(s, sep, from) == Some(i)
    ensures !Includes(s[from..i], sep)
  {
    IndexOfFromIsFirst(s, sep, from);
    IncludesIff(s[from..i], sep);
    var piece := s[from..i];
    forall j | OccursAt(piece, sep, j)
      ensures OccursAt(s, sep, from + j)
    {
      assert piece[j..j + |sep|] == s[from + j..from + j + |sep|];
    }
  }

  lemma TailExcludesSeparator(s: string, sep: string, from: nat)
    requires sep != [] && from <= |s| && IndexOfFrom(s, sep, from).None?
    ensures !Includes(s[from..], sep)
  {
    IndexOfFromIsFirst(s, sep, from);
    IncludesIff(s[from..], sep);
    var piece := s[from..];
    forall j | OccursAt(piece, sep, j)
      ensures OccursAt(s, sep, from + j)
    {
      assert piece[j..j + |sep|] == s[from + j..from + j + |sep|];
    }
  }

  lemma {:induction false} SplitFromExcludesSeparator(s: string, sep: string, from: nat)
    requires sep != [] && from <= |s|
    ensures forall k :: 0 <= k < |SplitFrom(s, sep, from)| ==> !Includes(SplitFrom(s, sep, from)[k], sep)
    decreases |s| - from
  {
    match IndexOfFrom(s, sep, from)
    case None =>
      TailExcludesSeparator(s, sep, from);
    case Some(i) =>
      PieceExcludesSeparator(s, sep, from, i);
      SplitFromExcludesSeparator(s, sep, i + |sep|);
  }

  /** No piece of a split contains the separator. */
  lemma SplitPiecesExcludeSeparator(s: string, sep: string)
    requires sep != []
    ensures forall k :: 0 <= k < |Split(s, sep)| ==> !Includes(Split(s, sep)[k], sep)
  {
    SplitFromExcludesSeparator(s, sep, 0);
  }

  /** The inverse of `Split`: `Array.prototype.join`. */
  function Join(parts: seq<string>, sep: string): string
    requires |parts| >= 1
  {
    if |parts| == 1 then parts[0] else parts[0] + sep + Join(parts[1..], sep)
  }

  /** The pieces of `s[from..]` joined again with the separator. */
  ghost function Rejoined(s: string, sep: string, from: nat): string
    requires sep != [] && from <= |s|
  {
    Join(SplitFrom(s, sep, from), sep)
  }

  /** Joining the pieces of `s[from..]` gives `s[from..]` back. */
  ghost predicate JoinsBack(s: string, sep: string, from: nat)
    requires sep != [] && from <= |s|
  {
    Rejoined(s, sep, from) == s[from..]
  }

  lemma {:induction false} JoinSplitFrom(s: string, sep: string, from: nat)
    requires sep != [] && from <= |s|
    ensures JoinsBack(s, sep, from)
    decreases |s| - from, 1
  {
    match IndexOfFrom(s, sep, from)
    case None =>
      JoinSplitNone(s, sep, from);
    case Some(i) =>
      JoinSplitSome(s, sep, from, i);
  }

  /** The base case of `JoinSplitFrom`: with no separator left, the one piece is the rest of the text. */
  lemma JoinSplitNone(s: string, sep: string, from: nat)
    requires sep != [] && from <= |s| && IndexOfFrom(s, sep, from).None?
    ensures JoinsBack(s, sep, from)
  {
    assert SplitFrom(s, sep, from) == [s[from..]];
  }

  /** The step case of `JoinSplitFrom`: the first piece, the separator, then the join of the rest. */
  lemma {:induction false} JoinSplitSome(s: string, sep: string, from: nat, i: nat)
    requires sep != [] && from <= |s| && IndexOfFrom(s, sep, from) == Some(i)
    ensures JoinsBack(s, sep, from)
    decreases |s| - from, 0
  {
    JoinSplitStep(s, sep, from, i);
    JoinSplitFrom(s, sep, i + |sep|);
    SliceAroundSeparator(s, sep, from, i);
    Substitute(Rejoined(s, sep, from), s[from..i], sep, Rejoined(s, sep, i + |sep|), s[i + |sep|..], s[from..]);
  }

  /** Replacing the last part of a concatenation by an equal string. */
  lemma Substitute(whole: string, a: string, b: string, c: string, c': string, result: string)
    requires whole == a + b + c && c == c' && a + b + c' == result
    ensures whole == result
  {
  }

  /** One step of `JoinSplitFrom`: the first piece, the separator, then the join of the rest. */
  lemma JoinSplitStep(s: string, sep: string, from: nat, i: nat)
    requires sep != [] && from <= |s| && IndexOfFrom(s, sep, from) == Some(i)
    ensures i + |sep| <= |s|
    ensures Rejoined(s, sep, from) == s[from..i] + sep + Rejoined(s, sep, i + |sep|)
  {
    SplitFromCons(s, sep, from, i);
    JoinCons(s[from..i], SplitFrom(s, sep, i + |sep|), sep);
  }

  lemma SplitFromCons(s: string, sep: string, from: nat, i: nat)
    requires sep != [] && from <= |s| && IndexOfFrom(s, sep, from) == Some(i)
    ensures i + |sep| <= |s|
    ensures SplitFrom(s, sep, from) == [s[from..i]] + SplitFrom(s, sep, i + |sep|)
  {
    assert OccursAt(s, sep, i);
  }

  lemma SliceAroundSeparator(s: string, sep: string, from: nat, i: nat)
    requires from <= i && OccursAt(s, sep, i)
    ensures s[from..i] + sep + s[i + |sep|..] == s[from..]
  {
    assert s[i..i + |sep|] == sep;
    SliceConcat(s, from, i, i + |sep|);
  }

  lemma JoinCons(piece: string, rest: seq<string>, sep: string)
    requires |rest| >= 1
    ensures Join([piece] + rest, sep) == piece + sep + Join(rest, sep)
  {
    assert ([piece] + rest)[1..] == rest;
  }

  lemma SliceConcat(s: string, a: nat, b: nat, c: nat)
    requires a <= b <= c <= |s|
    ensures s[a..] == s[a..b] + s[b..c] + s[c..]
  {
  }

  /** Joining the pieces of a split with the separator gives back the string. */
  lemma JoinSplit(s: string, sep: string)
    requires sep != []
    ensures Join(Split(s, sep), sep) == s
  {
    JoinSplitFrom(s, sep, 0);
    assert s[0..] == s;
  }

  /** With no second occurrence, the second piece is everything after the first. */
  lemma SecondPieceRunsToEnd(s: string, sep: string, first: nat)
    requires sep != [] && IndexOf(s, sep) == Some(first)
    requires IndexOfFrom(s, sep, first + |sep|).None?
    ensures first + |sep| <= |s|
    ensures Split(s, sep)[1] == s[first + |sep|..]
  {
    SplitFromCons(s, sep, 0, first);
    var rest := SplitFrom(s, sep, first + |sep|);
    assert Split(s, sep)[1] == rest[0];
  }

  /** With a second occurrence, the second piece is what lies between the first two. */
  lemma SecondPieceStopsAtNext(s: string, sep: string, first: nat, next: nat)
    requires sep != [] && IndexOf(s, sep) == Some(first)
    requires IndexOfFrom(s, sep, first + |sep|) == Some(next)
    ensures first + |sep| <= next <= |s|
    ensures Split(s, sep)[1] == s[first + |sep|..next]
  {
    assert OccursAt(s, sep, first);
    FirstPieceEnds(s, sep, first + |sep|, next);
    SecondPieceStarts(s, sep, first);
  }

  /** The second piece of the split is the first piece after the first occurrence. */
  lemma SecondPieceStarts(s: string, sep: string, first: nat)
    requires sep != [] && IndexOf(s, sep) == Some(first)
    ensures first + |sep| <= |s|
    ensures |Split(s, sep)| >= 2 && Split(s, sep)[1] == SplitFrom(s, sep, first + |sep|)[0]
  {
    SplitFromCons(s, sep, 0, first);
  }

  /** The first piece from `from` ends where the next occurrence begins. */
  lemma FirstPieceEnds(s: string, sep: string, from: nat, i: nat)
    requires sep != [] && from <= |s| && IndexOfFrom(s, sep, from) == Some(i)
    ensures from <= i <= |s|
    ensures SplitFrom(s, sep, from)[0] == s[from..i]
  {
    SplitFromCons(s, sep, from, i);
  }

  /** The second piece is shorter than the string: at least the separator is not in it. */
  lemma SecondPieceShorter(s: string, sep: string)
    requires sep != [] && Includes(s, sep)
    ensures |Split(s, sep)| >= 2
    ensures |Split(s, sep)[1]| + |sep| <= |s|
  {
    var first := IndexOf(s, sep).value;
    match IndexOfFrom(s, sep, first + |sep|)
    case None => SecondPieceRunsToEnd(s, sep, first);
    case Some(next) => SecondPieceStopsAtNext(s, sep, first, next);
  }
}
