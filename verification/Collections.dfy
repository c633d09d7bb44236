/** Facts about finite sequences shared by the other modules. */
module Collections {

  datatype Option<+T> = None | Some(value: T)

  function Max(a: int, b: int): (r: int)
    ensures r >= a && r >= b && (r == a || r == b)
  {
    if a >= b then a else b
  }

  /** The elements of a sequence, each listed once. */
  ghost predicate NoDup<T(!new)>(s: seq<T>) {
    forall i, j :: 0 <= i < j < |s| ==> s[i] != s[j]
  }

  ghost function Elements<T(!new)>(s: seq<T>): (r: set<T>)
    ensures forall x :: x in r <==> x in s
  {
    set x | x in s
  }

  /** Pigeonhole: a duplicate-free sequence is as long as the set of its elements. */
  lemma {:induction false} NoDupCardinality<T(!new)>(s: seq<T>)
    requires NoDup(s)
    ensures |Elements(s)| == |s|
  {
    if s == [] {
    } else {
      var front, last := s[..|s| - 1], s[|s| - 1];
      NoDupCardinality(front);
      assert s == front + [last];
      assert last !in front;
      assert Elements(s) == Elements(front) + {last};
    }
  }

  lemma NoDupBounded<T(!new)>(s: seq<T>, u: set<T>)
    requires NoDup(s) && forall x :: x in s ==> x in u
    ensures |s| <= |u|
  {
    NoDupCardinality(s);
    SubsetCardinality(Elements(s), u);
  }

  lemma {:induction false} SubsetCardinality<T(!new)>(a: set<T>, b: set<T>)
    requires a <= b
    ensures |a| <= |b|
  {
    if a == {} {
    } else {
      var x :| x in a;
      SubsetCardinality(a - {x}, b - {x});
    }
  }

  lemma NoDupConcat<T(!new)>(a: seq<T>, b: seq<T>)
    requires NoDup(a) && NoDup(b)
    requires forall x :: x in a ==> x !in b
    ensures NoDup(a + b)
  {
    forall i, j | 0 <= i < j < |a + b| ensures (a + b)[i] != (a + b)[j] {
      if i < |a| <= j {
        assert a[i] in a && b[j - |a|] in b;
      }
    }
  }

  lemma NoDupPrefix<T(!new)>(a: seq<T>, b: seq<T>)
    requires NoDup(b) && a <= b
    ensures NoDup(a)
  {
  }

  /** The elements of s satisfying p, in order. */
  ghost function Filter<T(!new)>(s: seq<T>, p: T -> bool): (r: seq<T>)
    ensures forall x :: x in r <==> x in s && p(x)
    ensures |r| <= |s|
  {
    if s == [] then [] else
      var rest := Filter(s[..|s| - 1], p);
      if p(s[|s| - 1]) then rest + [s[|s| - 1]] else rest
  }

  lemma FilterSnoc<T(!new)>(s: seq<T>, x: T, p: T -> bool)
    ensures Filter(s + [x], p) == if p(x) then Filter(s, p) + [x] else Filter(s, p)
  {
    assert (s + [x])[..|s|] == s;
  }

  /** Filtering one element more of a sequence. */
  lemma FilterNext<T(!new)>(s: seq<T>, i: nat, p: T -> bool)
    requires i < |s|
    ensures Filter(s[..i + 1], p) == if p(s[i]) then Filter(s[..i], p) + [s[i]] else Filter(s[..i], p)
  {
    FilterSnoc(s[..i], s[i], p);
    assert s[..i + 1] == s[..i] + [s[i]];
  }

  lemma {:induction false} FilterNoDup<T(!new)>(s: seq<T>, p: T -> bool)
    requires NoDup(s)
    ensures NoDup(Filter(s, p))
  {
    if s == [] {
    } else {
      FilterNoDup(s[..|s| - 1], p);
      assert s[|s| - 1] !in s[..|s| - 1];
    }
  }

  lemma {:induction false} FilterConcat<T(!new)>(a: seq<T>, b: seq<T>, p: T -> bool)
    ensures Filter(a + b, p) == Filter(a, p) + Filter(b, p)
  {
    if b == [] {
      assert a + b == a;
    } else {
      var c, x := b[..|b| - 1], b[|b| - 1];
      assert a + b == (a + c) + [x];
      FilterConcat(a, c, p);
      FilterSnoc(a + c, x, p);
    }
  }

  lemma {:induction false} FilterTwice<T(!new)>(s: seq<T>, both: T -> bool, p: T -> bool, q: T -> bool)
    requires forall x :: x in s ==> both(x) == (p(x) && q(x))
    ensures Filter(s, both) == Filter(Filter(s, p), q)
  {
    if s == [] {
    } else {
      var front, x := s[..|s| - 1], s[|s| - 1];
      FilterTwice(front, both, p, q);
      assert x in s;
      if p(x) {
        FilterSnoc(Filter(front, p), x, q);
      }
    }
  }

  lemma {:induction false} FilterAll<T(!new)>(s: seq<T>, p: T -> bool)
    requires forall x :: x in s ==> p(x)
    ensures Filter(s, p) == s
  {
    if s == [] {
    } else {
      FilterAll(s[..|s| - 1], p);
      assert s == s[..|s| - 1] + [s[|s| - 1]];
    }
  }

  lemma {:induction false} FilterNone<T(!new)>(s: seq<T>, p: T -> bool)
    requires forall x :: x in s ==> !p(x)
    ensures Filter(s, p) == []
  {
    if s == [] {
    } else {
      FilterNone(s[..|s| - 1], p);
    }
  }

  /** s up to and including its first element satisfying p. */
  ghost function CutAfter<T(!new)>(s: seq<T>, p: T -> bool): (r: seq<T>)
    ensures r <= s
  {
    if s == [] then []
    else if p(s[0]) then [s[0]]
    else [s[0]] + CutAfter(s[1..], p)
  }

  /** Reading CutAfter by position: nothing before the last element satisfies p, and
      what was cut off comes after an element that does. */
  lemma {:induction false} CutAfterMeaning<T(!new)>(s: seq<T>, p: T -> bool)
    ensures var r := CutAfter(s, p);
      && (forall i :: 0 <= i < |r| - 1 ==> !p(r[i]))
      && (r != s ==> r != [] && p(r[|r| - 1]))
  {
    if s != [] && !p(s[0]) {
      CutAfterMeaning(s[1..], p);
    }
  }

  lemma {:induction false} CutAfterSkip<T(!new)>(a: seq<T>, b: seq<T>, p: T -> bool)
    requires forall x :: x in a ==> !p(x)
    ensures CutAfter(a + b, p) == a + CutAfter(b, p)
  {
    if a == [] {
      assert a + b == b;
    } else {
      assert !p(a[0]);
      assert (a + b)[1..] == a[1..] + b;
      CutAfterSkip(a[1..], b, p);
    }
  }

  lemma CutAfterHit<T(!new)>(a: seq<T>, x: T, b: seq<T>, p: T -> bool)
    requires p(x) && forall y :: y in a ==> !p(y)
    ensures CutAfter(a + [x] + b, p) == a + [x]
  {
    assert a + [x] + b == a + ([x] + b);
    CutAfterSkip(a, [x] + b, p);
  }

  lemma CutAfterNone<T(!new)>(a: seq<T>, p: T -> bool)
    requires forall y :: y in a ==> !p(y)
    ensures CutAfter(a, p) == a
  {
    CutAfterSkip(a, [], p);
    assert a + [] == a;
  }

  lemma ConcatAssoc<T(!new)>(a: seq<T>, b: seq<T>, c: seq<T>)
    ensures (a + b) + c == a + (b + c)
  {
  }

  lemma DropDrop<T(!new)>(s: seq<T>, m: nat, n: nat)
    requires m + n <= |s|
    ensures s[m..][n..] == s[m + n..]
  {
  }

  lemma SplitAround<T(!new)>(s: seq<T>, n: nat)
    requires n < |s|
    ensures s == (s[..n] + [s[n]]) + s[n + 1..]
    ensures s[..n + 1] == s[..n] + [s[n]]
    ensures s[n..] == [s[n]] + s[n + 1..]
  {
  }

  /** Splitting a sequence at the end of one of its non-empty prefixes. */
  lemma SplitAtPrefix<T(!new)>(a: seq<T>, prefix: seq<T>, s: seq<T>, b: seq<T>)
    requires prefix != [] && prefix <= s
    ensures var n := |prefix| - 1;
      && a + s + b == (a + prefix[..n]) + [prefix[n]] + (s[n + 1..] + b)
      && (a + prefix[..n]) + [prefix[n]] == a + prefix
  {
    var n := |prefix| - 1;
    assert prefix == prefix[..n] + [prefix[n]];
    assert s == prefix + s[n + 1..];
  }

  /** Cutting after the end of a prefix of the middle part, the first element satisfying p. */
  lemma CutAfterPrefix<T(!new)>(a: seq<T>, prefix: seq<T>, s: seq<T>, b: seq<T>, p: T -> bool)
    requires prefix != [] && prefix <= s && p(prefix[|prefix| - 1])
    requires forall y :: y in a ==> !p(y)
    requires forall y :: y in prefix[..|prefix| - 1] ==> !p(y)
    ensures CutAfter(a + s + b, p) == a + prefix
  {
    var n := |prefix| - 1;
    SplitAtPrefix(a, prefix, s, b);
    CutAfterHit(a + prefix[..n], prefix[n], s[n + 1..] + b, p);
  }
}
