/** Helpers shared by the whole model: an Option type for JavaScript's
    null/undefined, JavaScript truthiness of optional strings, an
    order-preserving filter (Array.prototype.filter) and String.prototype.split
    with a non-empty separator. */
module Common {

  datatype Option<+T> = None | Some(value: T)

  /** `!x` in JavaScript for a value that is either absent or a string:
      true for undefined/null and for the empty string. */
  predicate Falsy(x: Option<string>)
  {
    x.None? || x.value == ""
  }

  /** `t` occurs in `s` at position `k`. */
  predicate OccursAt(s: string, t: string, k: int)
  {
    0 <= k && k + |t| <= |s| && s[k..k + |t|] == t
  }

  /** String.prototype.includes: `t` occurs somewhere in `s`. */
  predicate Contains(s: string, t: string)
  {
    exists k :: 0 <= k <= |s| && OccursAt(s, t, k)
  }

  /** A string lacking one of the characters of `t` does not contain `t`. */
  lemma MissingCharMeansNoOccurrence(s: string, t: string, i: nat)
    requires i < |t|
    requires forall j :: 0 <= j < |s| ==> s[j] != t[i]
    ensures !Contains(s, t)
  {
    forall k | 0 <= k <= |s| ensures !OccursAt(s, t, k) {
      if k + |t| <= |s| {
        assert s[k..k + |t|][i] != t[i];
      }
    }
  }

  /** Array.prototype.filter: the elements of `s` that satisfy `p`, in order. */
  function Filter<T>(s: seq<T>, p: T -> bool): (r: seq<T>)
    ensures |r| <= |s|
    ensures forall i :: 0 <= i < |r| ==> p(r[i])
    ensures r == [] <==> forall i :: 0 <= i < |s| ==> !p(s[i])
  {
    if s == [] then [] else (if p(s[0]) then [s[0]] else []) + Filter(s[1..], p)
  }

  /** The elements Filter keeps are exactly the elements of `s` satisfying
      `p`. */
  lemma {:induction false} FilterMembers<T>(s: seq<T>, p: T -> bool)
    ensures forall x :: x in Filter(s, p) <==> x in s && p(x)
  {
    if s != [] {
      FilterMembers(s[1..], p);
      assert forall x :: x in s <==> x == s[0] || x in s[1..];
    }
  }

  /** The index in `s` of `Filter(s, p)[0]`: the first element satisfying
      `p`. */
  function FirstIndex<T>(s: seq<T>, p: T -> bool): (k: nat)
    requires Filter(s, p) != []
    ensures k < |s| && p(s[k])
    ensures forall j :: 0 <= j < k ==> !p(s[j])
    ensures Filter(s, p)[0] == s[k]
  {
    if p(s[0]) then 0
    else
      var k := FirstIndex(s[1..], p);
      assert s[k + 1] == s[1..][k];
      1 + k
  }

  /** Filtering commutes with concatenation: the kept elements stay in their
      original order. Together with the one-element case this fixes Filter. */
  lemma {:induction false} FilterAppend<T>(a: seq<T>, b: seq<T>, p: T -> bool)
    ensures Filter(a + b, p) == Filter(a, p) + Filter(b, p)
  {
    if a == [] {
      assert a + b == b;
    } else {
      assert (a + b)[1..] == a[1..] + b;
      FilterAppend(a[1..], b, p);
    }
  }

  /** Filtering with a predicate every element satisfies changes nothing. */
  lemma {:induction false} FilterKeepsAll<T>(s: seq<T>, p: T -> bool)
    requires forall i :: 0 <= i < |s| ==> p(s[i])
    ensures Filter(s, p) == s
  {
    if s != [] {
      assert p(s[0]);
      FilterKeepsAll(s[1..], p);
    }
  }

  /** Filtering out an element that fails the predicate makes the result shorter. */
  lemma {:induction false} FilterShrinks<T>(s: seq<T>, p: T -> bool, i: nat)
    requires i < |s| && !p(s[i])
    ensures |Filter(s, p)| < |s|
  {
    if i > 0 {
      FilterShrinks(s[1..], p, i - 1);
    }
  }

  /** The first index at which `sep` occurs in `s`, if any (String.prototype.indexOf). */
  function IndexOf(s: string, sep: string): (r: Option<nat>)
    requires |sep| > 0
    ensures r.Some? ==> OccursAt(s, sep, r.value)
    decreases |s|
  {
    if |s| < |sep| then None
    else if s[..|sep|] == sep then Some(0)
    else
      match IndexOf(s[1..], sep)
      case None => None
      case Some(i) =>
        assert s[i + 1..i + 1 + |sep|] == s[1..][i..i + |sep|];
        Some(i + 1)
  }

  /** IndexOf finds the first occurrence, and reports none only when there is
      none. */
  lemma {:induction false} IndexOfIsFirst(s: string, sep: string)
    requires |sep| > 0
    ensures IndexOf(s, sep).Some? ==> forall k :: 0 <= k < IndexOf(s, sep).value ==> !OccursAt(s, sep, k)
    ensures IndexOf(s, sep).None? ==> forall k :: !OccursAt(s, sep, k)
    decreases |s|
  {
    if |s| >= |sep| && s[..|sep|] != sep {
      IndexOfIsFirst(s[1..], sep);
      forall k | k > 0 && OccursAt(s, sep, k) ensures OccursAt(s[1..], sep, k - 1) {
        assert s[k..k + |sep|] == s[1..][k - 1..k - 1 + |sep|];
      }
    }
  }

  /** String.prototype.split(sep) for a non-empty separator: the pieces
      between successive non-overlapping occurrences of `sep`, scanning from
      the left. The result always has at least one piece. */
  function Split(s: string, sep: string): (r: seq<string>)
    requires |sep| > 0
    ensures |r| >= 1
    decreases |s|
  {
    match IndexOf(s, sep)
    case None => [s]
    case Some(i) => [s[..i]] + Split(s[i + |sep|..], sep)
  }

  /** No piece of a split contains the separator. */
  lemma {:induction false} SplitPiecesLackSeparator(s: string, sep: string)
    requires |sep| > 0
    ensures forall i :: 0 <= i < |Split(s, sep)| ==> !Contains(Split(s, sep)[i], sep)
    decreases |s|
  {
    IndexOfIsFirst(s, sep);
    match IndexOf(s, sep)
    case None =>
      assert forall k :: 0 <= k <= |s| ==> !OccursAt(s, sep, k);
    case Some(i) =>
      var head, rest := s[..i], s[i + |sep|..];
      SplitPiecesLackSeparator(rest, sep);
      forall k | 0 <= k <= |head| ensures !OccursAt(head, sep, k) {
        if OccursAt(head, sep, k) {
          assert head[k..k + |sep|] == s[k..k + |sep|];
          assert OccursAt(s, sep, k);
        }
      }
      var pieces := Split(s, sep);
      assert pieces == [head] + Split(rest, sep);
      forall j | 0 <= j < |pieces| ensures !Contains(pieces[j], sep) {
        if j > 0 { assert pieces[j] == Split(rest, sep)[j - 1]; }
      }
  }

  /** Array.prototype.join(sep). */
  function Join(pieces: seq<string>, sep: string): string
  {
    if |pieces| == 0 then ""
    else if |pieces| == 1 then pieces[0]
    else pieces[0] + sep + Join(pieces[1..], sep)
  }

  /** Split loses nothing: joining the pieces with the separator gives back
      the input. */
  lemma {:induction false} JoinSplit(s: string, sep: string)
    requires |sep| > 0
    ensures Join(Split(s, sep), sep) == s
    decreases |s|
  {
    match IndexOf(s, sep)
    case None =>
    case Some(i) =>
      var head, rest := s[..i], s[i + |sep|..];
      var pieces := Split(rest, sep);
      JoinSplit(rest, sep);
      assert Split(s, sep) == [head] + pieces;
      assert ([head] + pieces)[1..] == pieces;
      assert Join(Split(s, sep), sep) == head + sep + rest;
      Reassemble(s, i, |sep|);
  }

  /** A string is its prefix, a middle piece and its suffix. */
  lemma Reassemble(s: string, i: nat, n: nat)
    requires i + n <= |s|
    ensures s == s[..i] + s[i..i + n] + s[i + n..]
  {
  }

  /** A string in which `sep` does not occur splits into itself alone. */
  lemma SplitWithoutSeparator(s: string, sep: string)
    requires |sep| > 0
    requires !Contains(s, sep)
    ensures Split(s, sep) == [s]
  {
    match IndexOf(s, sep)
    case None =>
    case Some(i) =>
      assert false;
  }
}
