/**
 * The JavaScript string operations the core relies on: `String.prototype.split`
 * with a non-empty string separator and `Array.prototype.join`.
 */
module Strings {
  import opened Wrappers

  /** `t` occurs in `s` starting at index `i`. */
  predicate MatchAt(s: string, t: string, i: nat) {
    i + |t| <= |s| && s[i..i + |t|] == t
  }

  ghost predicate Contains(s: string, t: string) {
    exists i: nat :: MatchAt(s, t, i)
  }

  predicate StartsWith(s: string, prefix: string) {
    |prefix| <= |s| && s[..|prefix|] == prefix
  }

  /** No proper suffix of `t` is also a prefix of it, so two occurrences of `t` never overlap. */
  ghost predicate Unbordered(t: string) {
    forall j :: 0 < j < |t| ==> t[j..] != t[..|t| - j]
  }

  /** The index of the leftmost occurrence of `t` in `s` (`String.prototype.indexOf`). */
  function IndexOf(s: string, t: string): (r: Option<nat>)
    requires |t| > 0
    ensures r.Some? ==> MatchAt(s, t, r.value)
    ensures r.Some? ==> forall j: nat :: j < r.value ==> !MatchAt(s, t, j)
    ensures r.None? ==> !Contains(s, t)
    decreases |s|
  {
    if |s| < |t| then None
    else if s[..|t|] == t then Some(0)
    else
      match IndexOf(s[1..], t)
      case None =>
        assert forall j: nat :: MatchAt(s, t, j) ==> j > 0 && MatchAt(s[1..], t, j - 1);
        None
      case Some(i) =>
        assert MatchAt(s[1..], t, i);
        assert s[i + 1..i + 1 + |t|] == s[1..][i..i + |t|];
        assert forall j: nat :: 0 < j < i + 1 ==> (MatchAt(s, t, j) ==> MatchAt(s[1..], t, j - 1));
        Some(i + 1)
  }

  /** `String.prototype.split`: the pieces of `s` between the non-overlapping leftmost occurrences of `t`. */
  function Split(s: string, t: string): (parts: seq<string>)
    requires |t| > 0
    ensures |parts| >= 1
    decreases |s|
  {
    match IndexOf(s, t)
    case None => [s]
    case Some(i) => [s[..i]] + Split(s[i + |t|..], t)
  }

  /** There is one piece exactly when there is no separator; the first piece is a separator-free prefix. */
  lemma SplitFirst(s: string, t: string)
    requires |t| > 0
    ensures |Split(s, t)| == 1 <==> !Contains(s, t)
    ensures StartsWith(s, Split(s, t)[0]) && !Contains(Split(s, t)[0], t)
  {
    match IndexOf(s, t)
    case None =>
    case Some(i) =>
      assert MatchAt(s, t, i);
      assert Split(s, t)[0] == s[..i];
      forall j: nat | j + |t| <= i ensures !MatchAt(s[..i], t, j) {
        assert s[..i][j..j + |t|] == s[j..j + |t|];
        assert j < i && !MatchAt(s, t, j);
      }
  }

  /** `Array.prototype.join`: the parts with `t` between neighbours; `""` for no parts. */
  function Join(parts: seq<string>, t: string): string
    decreases |parts|
  {
    if |parts| == 0 then ""
    else if |parts| == 1 then parts[0]
    else parts[0] + t + Join(parts[1..], t)
  }

  /** Joining the pieces of a split with the same separator gives back the string. */
  lemma {:induction false} JoinSplit(s: string, t: string)
    requires |t| > 0
    ensures Join(Split(s, t), t) == s
    decreases |s|
  {
    match IndexOf(s, t)
    case None =>
    case Some(i) =>
      var head, rest := s[..i], s[i + |t|..];
      var tail := Split(rest, t);
      assert s == head + t + rest by {
        assert s[i..i + |t|] == t;
      }
      calc {
        Join(Split(s, t), t);
        Join([head] + tail, t);
        { JoinCons(head, tail, t); }
        head + t + Join(tail, t);
        { JoinSplit(rest, t); }
        s;
      }
  }

  lemma JoinCons(head: string, tail: seq<string>, t: string)
    requires |tail| > 0
    ensures Join([head] + tail, t) == head + t + Join(tail, t)
  {
    assert ([head] + tail)[1..] == tail;
  }

  /** Before the glued-on separator, `a + t + b` holds no occurrence of `t`. */
  lemma FirstMatchAfter(a: string, t: string, b: string)
    requires |t| > 0 && Unbordered(t) && !Contains(a, t)
    ensures IndexOf(a + t + b, t) == Some(|a|)
  {
    var s := a + t + b;
    assert s[|a|..|a| + |t|] == t;
    assert MatchAt(s, t, |a|);
    forall j: nat | j < |a| ensures !MatchAt(s, t, j) {
      if j + |t| <= |a| {
        assert s[j..j + |t|] == a[j..j + |t|];
        assert !MatchAt(a, t, j);
      } else {
        var k := |a| - j;
        assert t[..|t| - k] == s[|a|..j + |t|];
        assert t[k..] != t[..|t| - k];
      }
    }
  }

  /** Splitting at a first occurrence glued after `a`: `a` is the first piece. */
  lemma SplitAfter(a: string, t: string, b: string)
    requires |t| > 0 && Unbordered(t) && !Contains(a, t)
    ensures Split(a + t + b, t) == [a] + Split(b, t)
  {
    FirstMatchAfter(a, t, b);
    var s := a + t + b;
    assert s[..|a|] == a;
    assert s[|a| + |t|..] == b;
  }

  lemma NoMatchNoSplit(s: string, t: string)
    requires |t| > 0 && !Contains(s, t)
    ensures Split(s, t) == [s]
  {
  }

  /** Splitting joined parts gives the parts back, when no part contains the (non-self-overlapping) separator. */
  lemma {:induction false} SplitJoin(parts: seq<string>, t: string)
    requires |parts| > 0 && |t| > 0 && Unbordered(t)
    requires forall i :: 0 <= i < |parts| ==> !Contains(parts[i], t)
    ensures Split(Join(parts, t), t) == parts
    decreases |parts|
  {
    if |parts| == 1 {
      NoMatchNoSplit(parts[0], t);
    } else {
      var head, tail := parts[0], parts[1..];
      var rest := Join(tail, t);
      var s := head + t + rest;
      assert Join(parts, t) == s;
      FirstMatchAfter(head, t, rest);
      assert s[..|head|] == head;
      assert s[|head| + |t|..] == rest;
      assert Split(s, t) == [head] + Split(rest, t);
      SplitJoin(tail, t);
      assert parts == [head] + tail;
    }
  }

  /** A string none of whose characters is `c` contains no string starting with `c`. */
  lemma NoCharNoMatch(s: string, t: string)
    requires |t| > 0 && forall i :: 0 <= i < |s| ==> s[i] != t[0]
    ensures !Contains(s, t)
  {
    forall i: nat | i + |t| <= |s| ensures !MatchAt(s, t, i) {
      assert s[i..i + |t|][0] == s[i];
    }
  }
}
