/** Sorting by a total order, and the lexicographic order of text by code point. */
module Ordering {
  import opened Characters

  predicate AtMost(a: Text, b: Text) {
    a == [] || (b != [] && (a[0] < b[0] || (a[0] == b[0] && AtMost(a[1..], b[1..]))))
  }

  /** Any two elements can be compared; different ones may rank equally. */
  ghost predicate Ranks<T(!new)>(le: (T, T) -> bool) {
    && (forall a, b :: le(a, b) || le(b, a))
    && (forall a, b, c :: le(a, b) && le(b, c) ==> le(a, c))
  }

  ghost predicate TotalOrder<T(!new)>(le: (T, T) -> bool) {
    Ranks(le) && forall a, b :: le(a, b) && le(b, a) ==> a == b
  }

  lemma {:induction false} AtMostIsTotal(a: Text, b: Text)
    ensures AtMost(a, b) || AtMost(b, a)
    ensures AtMost(a, b) && AtMost(b, a) ==> a == b
  {
    if a == [] || b == [] || a[0] != b[0] {
    } else {
      AtMostIsTotal(a[1..], b[1..]);
      assert a == [a[0]] + a[1..] && b == [b[0]] + b[1..];
    }
  }

  lemma {:induction false} AtMostIsTransitive(a: Text, b: Text, c: Text)
    requires AtMost(a, b) && AtMost(b, c)
    ensures AtMost(a, c)
  {
    if a == [] || !(a[0] == b[0] == c[0]) {
    } else {
      AtMostIsTransitive(a[1..], b[1..], c[1..]);
    }
  }

  /** A proper beginning of the other, or smaller at the first difference. */
  ghost predicate Precedes(a: Text, b: Text) {
    exists k :: 0 <= k <= |a| && k < |b| && a[..k] == b[..k] && (k == |a| || a[k] < b[k])
  }

  lemma PrecedesBehind(a: Text, b: Text)
    requires a != [] && b != [] && a[0] == b[0]
    ensures Precedes(a, b) <==> Precedes(a[1..], b[1..])
  {
    var c, d := a[1..], b[1..];
    if k :| 0 <= k <= |c| && k < |d| && c[..k] == d[..k] && (k == |c| || c[k] < d[k]) {
      assert a[..k + 1] == [a[0]] + c[..k] && b[..k + 1] == [b[0]] + d[..k];
    }
    if k :| 0 <= k <= |a| && k < |b| && a[..k] == b[..k] && (k == |a| || a[k] < b[k]) {
      assert k > 0;
      assert c[..k - 1] == a[..k][1..] && d[..k - 1] == b[..k][1..];
    }
  }

  lemma SameHead(a: Text, b: Text, k: nat)
    requires 0 < k <= |a| && k <= |b| && a[..k] == b[..k]
    ensures a[0] == b[0]
  {
    assert a[..k][0] == a[0];
  }

  lemma PrecedesAtOnce(a: Text, b: Text)
    requires a == [] || b == [] || a[0] != b[0]
    ensures Precedes(a, b) <==> b != [] && (a == [] || a[0] < b[0])
  {
    if b != [] && (a == [] || a[0] < b[0]) {
      assert a[..0] == b[..0];
    }
    if k :| 0 <= k <= |a| && k < |b| && a[..k] == b[..k] && (k == |a| || a[k] < b[k]) {
      if k > 0 {
        SameHead(a, b, k);
      }
    }
  }

  lemma {:induction false} AtMostIsLexicographic(a: Text, b: Text)
    ensures AtMost(a, b) <==> a == b || Precedes(a, b)
  {
    hide Precedes;
    if a == [] || b == [] || a[0] != b[0] {
      PrecedesAtOnce(a, b);
    } else {
      AtMostIsLexicographic(a[1..], b[1..]);
      PrecedesBehind(a, b);
      assert a == [a[0]] + a[1..] && b == [b[0]] + b[1..];
    }
  }

  predicate StringAtMost(a: string, b: string) {
    AtMost(Points(a), Points(b))
  }

  lemma StringAtMostIsTotalOrder()
    ensures TotalOrder(StringAtMost)
  {
    hide AtMost;
    forall a: string, b
      ensures (StringAtMost(a, b) || StringAtMost(b, a)) && (StringAtMost(a, b) && StringAtMost(b, a) ==> a == b) {
      AtMostIsTotal(Points(a), Points(b));
      if Points(a) == Points(b) {
        PointsAreDistinct(a, b);
      }
    }
    forall a: string, b, c | StringAtMost(a, b) && StringAtMost(b, c) ensures StringAtMost(a, c) {
      AtMostIsTransitive(Points(a), Points(b), Points(c));
    }
  }

  predicate Sorted<T>(s: seq<T>, le: (T, T) -> bool) {
    forall i, j :: 0 <= i < j < |s| ==> le(s[i], s[j])
  }

  function Insert<T>(x: T, s: seq<T>, le: (T, T) -> bool): (r: seq<T>)
    ensures multiset(r) == multiset(s) + multiset{x}
  {
    if s == [] || le(x, s[0]) then [x] + s
    else
      assert s == [s[0]] + s[1..];
      [s[0]] + Insert(x, s[1..], le)
  }

  function Sort<T>(s: seq<T>, le: (T, T) -> bool): (r: seq<T>)
    ensures multiset(r) == multiset(s)
  {
    if s == [] then []
    else
      assert s == [s[0]] + s[1..];
      Insert(s[0], Sort(s[1..], le), le)
  }

  lemma {:induction false} InsertIsSorted<T(!new)>(x: T, s: seq<T>, le: (T, T) -> bool)
    requires Ranks(le) && Sorted(s, le)
    ensures Sorted(Insert(x, s, le), le)
  {
    if s == [] || le(x, s[0]) {
    } else {
      InsertIsSorted(x, s[1..], le);
      var rest := Insert(x, s[1..], le);
      forall k | 0 <= k < |rest| ensures le(s[0], rest[k]) {
        assert rest[k] in multiset(rest);
        assert rest[k] == x || rest[k] in s[1..];
      }
    }
  }

  lemma {:induction false} SortIsSorted<T(!new)>(s: seq<T>, le: (T, T) -> bool)
    requires Ranks(le)
    ensures Sorted(Sort(s, le), le)
  {
    if s == [] {
    } else {
      SortIsSorted(s[1..], le);
      InsertIsSorted(s[0], Sort(s[1..], le), le);
    }
  }

  lemma LeastComesFirst<T(!new)>(a: seq<T>, b: seq<T>, le: (T, T) -> bool)
    requires TotalOrder(le) && Sorted(a, le) && Sorted(b, le) && multiset(a) == multiset(b) && a != [] && b != []
    ensures a[0] == b[0]
  {
    assert a[0] in multiset(b) && b[0] in multiset(a);
    var i :| 0 <= i < |b| && b[i] == a[0];
    var j :| 0 <= j < |a| && a[j] == b[0];
    assert le(b[0], b[i]) && le(a[0], a[j]);
  }

  /** A bag has only one sorted sequence. */
  lemma {:induction false} SortedIsUnique<T(!new)>(a: seq<T>, b: seq<T>, le: (T, T) -> bool)
    requires TotalOrder(le) && Sorted(a, le) && Sorted(b, le) && multiset(a) == multiset(b)
    ensures a == b
  {
    hide TotalOrder;
    assert |a| == |multiset(a)| == |multiset(b)| == |b|;
    if a == [] {
    } else {
      LeastComesFirst(a, b, le);
      RestOfBag(a, b);
      SortedIsUnique(a[1..], b[1..], le);
    }
  }

  lemma RestOfBag<T>(a: seq<T>, b: seq<T>)
    requires a != [] && b != [] && a[0] == b[0] && multiset(a) == multiset(b)
    ensures multiset(a[1..]) == multiset(b[1..])
  {
    assert a == [a[0]] + a[1..] && b == [b[0]] + b[1..];
    assert multiset(a[1..]) == multiset(a) - multiset{a[0]} == multiset(b[1..]);
  }

  /** The elements of a set in order. */
  ghost function InOrder(s: set<string>): (r: seq<string>)
    ensures multiset(r) == multiset(s)
  {
    if s == {} then []
    else
      var x :| x in s;
      Insert(x, InOrder(s - {x}), StringAtMost)
  }

  lemma {:induction false} InOrderIsSorted(s: set<string>)
    ensures Sorted(InOrder(s), StringAtMost)
  {
    if s == {} {
    } else {
      StringAtMostIsTotalOrder();
      forall x | x in s ensures Sorted(Insert(x, InOrder(s - {x}), StringAtMost), StringAtMost) {
        InOrderIsSorted(s - {x});
        InsertIsSorted(x, InOrder(s - {x}), StringAtMost);
      }
    }
  }

  method SortSet(s: set<string>) returns (r: seq<string>)
    ensures r == InOrder(s)
  {
    StringAtMostIsTotalOrder();
    r := [];
    var rest := s;
    while rest != {}
      invariant rest <= s && multiset(r) == multiset(s - rest) && Sorted(r, StringAtMost)
    {
      var x :| x in rest;
      InsertIsSorted(x, r, StringAtMost);
      assert s - (rest - {x}) == (s - rest) + {x};
      r, rest := Insert(x, r, StringAtMost), rest - {x};
    }
    assert s - rest == s;
    InOrderIsSorted(s);
    SortedIsUnique(r, InOrder(s), StringAtMost);
  }

  /** The elements in order, each once, one properly before the next. */
  lemma InOrderAt(s: set<string>, i: nat, j: nat)
    requires i < j < |InOrder(s)|
    ensures Precedes(Points(InOrder(s)[i]), Points(InOrder(s)[j]))
  {
    hide InOrder, Precedes, AtMost;
    var all := InOrder(s);
    InOrderIsSorted(s);
    assert StringAtMost(all[i], all[j]);
    TwiceIsTwo(all, i, j);
    assert multiset(s)[all[i]] <= 1;
    AtMostIsLexicographic(Points(all[i]), Points(all[j]));
    if Points(all[i]) == Points(all[j]) {
      PointsAreDistinct(all[i], all[j]);
    }
  }

  lemma TwiceIsTwo<T>(s: seq<T>, i: nat, j: nat)
    requires i < j < |s|
    ensures s[i] == s[j] ==> multiset(s)[s[i]] >= 2
  {
    assert s == s[..j] + [s[j]] + s[j + 1..];
    assert s[..j][i] == s[i] && s[i] in multiset(s[..j]);
  }

  lemma InOrderHolds(s: set<string>, x: string)
    ensures x in InOrder(s) <==> x in s
  {
    hide InOrder;
    assert x in InOrder(s) <==> x in multiset(InOrder(s));
  }
}
