/**
 * Separator-delimited lists over sequences of any element type, with the
 * semantics of Go's `strings.Split` (non-empty separator) and
 * `strings.Join`.
 */
module Seqs {
  import opened Common

  /** `sep` occurs in `s` starting at index `i`. */
  predicate OccursAt<T(==)>(s: seq<T>, sep: seq<T>, i: nat)
  {
    i + |sep| <= |s| && s[i..i + |sep|] == sep
  }

  /** The first occurrence of `sep` in `s` at or after `from`. */
  function IndexOf<T(==)>(s: seq<T>, sep: seq<T>, from: nat): (r: Option<nat>)
    ensures r.Some? ==> from <= r.value && OccursAt(s, sep, r.value)
    ensures r.Some? ==> forall j :: from <= j < r.value ==> !OccursAt(s, sep, j)
    ensures r.None? ==> forall j :: from <= j ==> !OccursAt(s, sep, j)
    decreases |s| - from
  {
    if from + |sep| > |s| then None
    else if OccursAt(s, sep, from) then Some(from)
    else IndexOf(s, sep, from + 1)
  }

  /**
   * The pieces of `s` between the non-overlapping occurrences of `sep`,
   * found from left to right; the empty sequence gives one empty piece.
   */
  function Split<T(==)>(s: seq<T>, sep: seq<T>): (r: seq<seq<T>>)
    requires |sep| > 0
    ensures |r| >= 1
    decreases |s|
  {
    match IndexOf(s, sep, 0)
    case None => [s]
    case Some(i) => [s[..i]] + Split(s[i + |sep|..], sep)
  }

  /** The elements of `xs` with `sep` between each two neighbours. */
  function Join<T>(xs: seq<seq<T>>, sep: seq<T>): seq<T>
  {
    if |xs| == 0 then []
    else if |xs| == 1 then xs[0]
    else xs[0] + sep + Join(xs[1..], sep)
  }

  /** Joining a list with at least two elements puts the separator after the first. */
  lemma JoinCons<T>(x: seq<T>, ys: seq<seq<T>>, sep: seq<T>)
    requires |ys| > 0
    ensures Join([x] + ys, sep) == x + sep + Join(ys, sep)
  {
    assert ([x] + ys)[1..] == ys;
  }

  /** Joining the pieces of a split with the same separator gives back the input. */
  lemma {:induction false} JoinSplit<T>(s: seq<T>, sep: seq<T>)
    requires |sep| > 0
    ensures Join(Split(s, sep), sep) == s
    decreases |s|
  {
    var r := IndexOf(s, sep, 0);
    if r.Some? {
      var i := r.value;
      var rest := s[i + |sep|..];
      var ys := Split(rest, sep);
      assert Split(s, sep) == [s[..i]] + ys;
      JoinSplit(rest, sep);
      JoinCons(s[..i], ys, sep);
      assert s == s[..i] + s[i..i + |sep|] + rest;
    }
  }

  /** No piece of a split contains the separator. */
  lemma {:induction false} SplitPiecesAvoidSep<T>(s: seq<T>, sep: seq<T>)
    requires |sep| > 0
    ensures forall k: nat, j: nat :: k < |Split(s, sep)| ==> !OccursAt(Split(s, sep)[k], sep, j)
    decreases |s|
  {
    match IndexOf(s, sep, 0)
    case None =>
      assert Split(s, sep) == [s];
    case Some(i) =>
      var rest := s[i + |sep|..];
      SplitPiecesAvoidSep(rest, sep);
      var xs := Split(s, sep);
      assert xs == [s[..i]] + Split(rest, sep);
      forall k: nat, j: nat | k < |xs| ensures !OccursAt(xs[k], sep, j) {
        if k == 0 {
          if OccursAt(s[..i], sep, j) {
            assert s[..i][j..j + |sep|] == s[j..j + |sep|];
            assert OccursAt(s, sep, j);
          }
        } else {
          assert xs[k] == Split(rest, sep)[k - 1];
        }
      }
  }

  /** An element that does not occur in `s` gives no one-element separator occurrence. */
  lemma NoOccurrence<T>(s: seq<T>, c: T, from: nat)
    requires c !in s
    ensures IndexOf(s, [c], from) == None
  {
    forall j: nat ensures !OccursAt(s, [c], j) {
      if j < |s| {
        assert s[j..j + 1][0] == s[j];
      }
    }
  }

  /**
   * With a one-element separator that occurs in none of the elements,
   * splitting a join gives back the (non-empty) list.
   */
  lemma {:induction false} SplitJoinSingle<T>(xs: seq<seq<T>>, c: T)
    requires |xs| > 0
    requires forall k :: 0 <= k < |xs| ==> c !in xs[k]
    ensures Split(Join(xs, [c]), [c]) == xs
  {
    var s := Join(xs, [c]);
    if |xs| == 1 {
      NoOccurrence(s, c, 0);
    } else {
      var x := xs[0];
      var tail := Join(xs[1..], [c]);
      assert s == x + [c] + tail;
      assert OccursAt(s, [c], |x|) by {
        assert s[|x|..|x| + 1] == [c];
      }
      forall j | 0 <= j < |x| ensures !OccursAt(s, [c], j) {
        assert s[j] == x[j];
        assert x[j] != c;
      }
      var r := IndexOf(s, [c], 0);
      assert r == Some(|x|);
      assert s[..|x|] == x;
      assert s[|x| + 1..] == tail;
      SplitJoinSingle(xs[1..], c);
      assert Split(s, [c]) == [x] + xs[1..];
    }
  }

  /** A one-element separator splits `s` into one more piece than it occurs in `s`. */
  lemma {:induction false} SplitCountSingle<T>(s: seq<T>, c: T)
    ensures |Split(s, [c])| == multiset(s)[c] + 1
    decreases |s|
  {
    match IndexOf(s, [c], 0)
    case None =>
      if c in s {
        var j :| 0 <= j < |s| && s[j] == c;
        assert s[j..j + 1] == [c];
        assert OccursAt(s, [c], j);
      }
    case Some(i) =>
      var rest := s[i + 1..];
      SplitCountSingle(rest, c);
      FirstSingle(s, c, i);
      assert multiset(s) == multiset(s[..i]) + multiset([c]) + multiset(rest);
  }

  /** The first occurrence of a one-element separator cuts `s` into a part without it, the element, and the rest. */
  lemma FirstSingle<T>(s: seq<T>, c: T, i: nat)
    requires OccursAt(s, [c], i) && forall j :: 0 <= j < i ==> !OccursAt(s, [c], j)
    ensures i < |s| && c !in s[..i] && s == s[..i] + [c] + s[i + 1..]
  {
    forall j | 0 <= j < i ensures s[..i][j] != c {
      if s[j] == c { assert s[j..j + 1] == [c]; assert OccursAt(s, [c], j); }
    }
    assert s[i..i + 1] == [c];
  }

  /** Joining one more element onto a non-empty list extends the join at its end. */
  lemma {:induction false} JoinSnoc<T>(xs: seq<seq<T>>, x: seq<T>, sep: seq<T>)
    requires |xs| > 0
    ensures Join(xs + [x], sep) == Join(xs, sep) + sep + x
  {
    if |xs| == 1 {
      assert (xs + [x])[1..] == [x];
    } else {
      assert (xs + [x])[1..] == xs[1..] + [x];
      JoinSnoc(xs[1..], x, sep);
    }
  }

  /** The join of a longer prefix extends the join of the shorter one by one element. */
  lemma JoinPrefixStep<T>(xs: seq<seq<T>>, i: nat, sep: seq<T>)
    requires 0 < i < |xs|
    ensures Join(xs[..i + 1], sep) == Join(xs[..i], sep) + sep + xs[i]
  {
    assert xs[..i + 1] == xs[..i] + [xs[i]];
    JoinSnoc(xs[..i], xs[i], sep);
  }
}
