/** Go's byte-slice splitting and deleting, on sequences of any element type,
    for a one-element separator. */
module Seqs {

  /** Number of occurrences of `x` in `s`. */
  function Count<T(==)>(s: seq<T>, x: T): (n: nat)
    ensures n == 0 <==> x !in s
    ensures n <= |s|
  {
    if |s| == 0 then 0 else (if s[0] == x then 1 else 0) + Count(s[1..], x)
  }

  /** The inverse of Split: the parts glued back together with `sep` between
      consecutive parts. */
  function Join<T>(parts: seq<seq<T>>, sep: T): seq<T>
    requires |parts| >= 1
  {
    if |parts| == 1 then parts[0] else parts[0] + [sep] + Join(parts[1..], sep)
  }

  /** Joining a first part in front of at least one more. */
  lemma JoinCons<T>(a: seq<T>, rest: seq<seq<T>>, sep: T)
    requires |rest| >= 1
    ensures Join([a] + rest, sep) == a + [sep] + Join(rest, sep)
  {
    assert ([a] + rest)[1..] == rest;
  }

  /** Putting `x` in front of the first part puts it in front of the join. */
  lemma JoinExtendFirst<T>(x: T, parts: seq<seq<T>>, sep: T)
    requires |parts| >= 1
    ensures Join([[x] + parts[0]] + parts[1..], sep) == [x] + Join(parts, sep)
  {
    var head := [x] + parts[0];
    var tail := parts[1..];
    if |tail| == 0 {
      assert [head] + tail == [head];
    } else {
      var rest := Join(tail, sep);
      JoinCons(head, tail, sep);
      assert Join(parts, sep) == parts[0] + [sep] + rest;
      AppendAssoc([x], parts[0], [sep]);
      AppendAssoc([x], parts[0] + [sep], rest);
    }
  }

  /** Go's `bytes.Split(s, []byte{sep})`: the maximal runs between separators.
      There is always exactly one more part than there are separators, so the
      empty sequence splits into one empty part. */
  function Split<T(==)>(s: seq<T>, sep: T): (parts: seq<seq<T>>)
    ensures |parts| == Count(s, sep) + 1
    ensures forall i :: 0 <= i < |parts| ==> sep !in parts[i]
    ensures Join(parts, sep) == s
    decreases |s|
  {
    if |s| == 0 then [[]]
    else
      var rest := Split(s[1..], sep);
      assert s == [s[0]] + s[1..];
      if s[0] == sep then
        JoinCons([], rest, sep);
        [[]] + rest
      else
        JoinExtendFirst(s[0], rest, sep);
        [[s[0]] + rest[0]] + rest[1..]
  }

  /** A sequence without the separator is a single part. */
  lemma {:induction false} SplitWithout<T>(a: seq<T>, sep: T)
    requires sep !in a
    ensures Split(a, sep) == [a]
  {
    var parts := Split(a, sep);
    assert parts[0] == Join(parts, sep);
  }

  /** Text before the first separator becomes the first part; splitting
      continues after the separator. */
  lemma {:induction false} SplitAfter<T>(a: seq<T>, sep: T, b: seq<T>)
    requires sep !in a
    ensures Split(a + [sep] + b, sep) == [a] + Split(b, sep)
    decreases |a|
  {
    var s := a + [sep] + b;
    if |a| == 0 {
      assert s[1..] == b;
    } else {
      assert s[1..] == a[1..] + [sep] + b;
      SplitAfter(a[1..], sep, b);
      var rest := Split(s[1..], sep);
      assert rest[0] == a[1..] && rest[1..] == Split(b, sep);
      SplitCons(s, sep);
      assert [s[0]] + a[1..] == a;
    }
  }

  /** A sequence that does not start with the separator: its first element
      joins the first part of the rest. */
  lemma SplitCons<T>(s: seq<T>, sep: T)
    requires |s| > 0 && s[0] != sep
    ensures Split(s, sep) == [[s[0]] + Split(s[1..], sep)[0]] + Split(s[1..], sep)[1..]
  {
  }

  lemma AppendAssoc<T>(a: seq<T>, b: seq<T>, c: seq<T>)
    ensures a + (b + c) == (a + b) + c
  {
  }

  /** Splitting undoes joining parts that do not contain the separator. */
  lemma {:induction false} SplitJoin<T>(parts: seq<seq<T>>, sep: T)
    requires |parts| >= 1
    requires forall i :: 0 <= i < |parts| ==> sep !in parts[i]
    ensures Split(Join(parts, sep), sep) == parts
    decreases |parts|
  {
    if |parts| == 1 {
      SplitWithout(parts[0], sep);
    } else {
      SplitAfter(parts[0], sep, Join(parts[1..], sep));
      SplitJoin(parts[1..], sep);
      assert [parts[0]] + parts[1..] == parts;
    }
  }

  /** The first part of `a + b`, when `a` holds no separator, runs through
      all of `a` into the first part of `b`. */
  lemma {:induction false} SplitFirst<T>(a: seq<T>, b: seq<T>, sep: T)
    requires sep !in a
    ensures Split(a + b, sep)[0] == a + Split(b, sep)[0]
    decreases |a|
  {
    if |a| > 0 {
      SplitCons(a + b, sep);
      assert (a + b)[1..] == a[1..] + b;
      SplitFirst(a[1..], b, sep);
      ConsAppend(a, Split(b, sep)[0]);
    } else {
      assert a + b == b;
    }
  }

  lemma ConsAppend<T>(a: seq<T>, c: seq<T>)
    requires |a| > 0
    ensures [a[0]] + (a[1..] + c) == a + c
  {
    assert [a[0]] + a[1..] == a;
  }

  /** Go's `bytes.ReplaceAll(s, []byte{x}, []byte{})`: every `x` deleted,
      every other element kept in order. */
  function Remove<T(==,!new)>(s: seq<T>, x: T): (r: seq<T>)
    ensures x !in r
    ensures |r| == |s| - Count(s, x)
    ensures forall y | y != x :: Count(r, y) == Count(s, y)
    decreases |s|
  {
    if |s| == 0 then []
    else if s[0] == x then Remove(s[1..], x)
    else
      var rest := Remove(s[1..], x);
      assert ([s[0]] + rest)[1..] == rest;
      [s[0]] + rest
  }

  /** Deleting is done element by element: it distributes over concatenation. */
  lemma {:induction false} RemoveAppend<T(!new)>(a: seq<T>, b: seq<T>, x: T)
    ensures Remove(a + b, x) == Remove(a, x) + Remove(b, x)
    decreases |a|
  {
    if |a| == 0 {
      assert a + b == b;
    } else {
      var kept := if a[0] == x then [] else [a[0]];
      RemoveHead(a + b, x);
      assert (a + b)[1..] == a[1..] + b;
      RemoveAppend(a[1..], b, x);
      RemoveHead(a, x);
      AppendAssoc(kept, Remove(a[1..], x), Remove(b, x));
    }
  }

  lemma RemoveHead<T(!new)>(s: seq<T>, x: T)
    requires |s| > 0
    ensures Remove(s, x) == (if s[0] == x then [] else [s[0]]) + Remove(s[1..], x)
  {
    if s[0] == x {
      assert [] + Remove(s[1..], x) == Remove(s[1..], x);
    }
  }

  /** Deleting an element that does not occur changes nothing. */
  lemma {:induction false} RemoveAbsent<T(!new)>(s: seq<T>, x: T)
    requires x !in s
    ensures Remove(s, x) == s
    decreases |s|
  {
    if |s| > 0 {
      RemoveAbsent(s[1..], x);
      assert [s[0]] + s[1..] == s;
    }
  }
}
