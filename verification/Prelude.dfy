/** Sequence vocabulary shared by the log and metrics modules. */
module Prelude {

  datatype Option<+T> = None | Some(value: T)

  function Min(a: int, b: int): int { if a <= b then a else b }

  function Max(a: int, b: int): int { if a >= b then a else b }

  function First<T>(s: seq<T>, n: nat): seq<T> { s[..Min(n, |s|)] }

  function Last<T>(s: seq<T>, n: nat): seq<T> { s[|s| - Min(n, |s|)..] }

  function Reverse<T>(s: seq<T>): (r: seq<T>)
    ensures |r| == |s|
    ensures forall i :: 0 <= i < |s| ==> r[i] == s[|s| - 1 - i]
  {
    if s == [] then [] else Reverse(s[1..]) + [s[0]]
  }

  lemma {:induction false} ReverseConcat<T>(a: seq<T>, b: seq<T>)
    ensures Reverse(a + b) == Reverse(b) + Reverse(a)
  {
    if a == [] {
      assert a + b == b;
    } else {
      assert (a + b)[1..] == a[1..] + b;
      ReverseConcat(a[1..], b);
    }
  }

  ghost function AnyOf<T>(s: set<T>): (x: T)
    requires s != {}
    ensures x in s
  {
    var x :| x in s; x
  }

  lemma CommonMember<T>(a: set<T>, b: set<T>) returns (x: T)
    requires !(a !! b)
    ensures x in a && x in b
  {
    x :| x in a && x in b;
  }

  /** A hash map or directory listing may come in any order. */
  method Pick<T>(s: set<T>) returns (x: T)
    requires s != {}
    ensures x in s
  {
    x :| x in s;
  }

  lemma HeadOrTail<T>(s: seq<T>, e: T)
    requires s != []
    ensures e in s <==> e == s[0] || e in s[1..]
  {
    assert s == [s[0]] + s[1..];
  }

  lemma ConcatAssociates<T>(a: seq<T>, b: seq<T>, c: seq<T>)
    ensures a + (b + c) == (a + b) + c
  {
  }

  lemma SliceAfterDrop<T>(s: seq<T>, d: nat, lo: nat, hi: nat)
    requires d <= lo <= hi <= |s|
    ensures s[d..][lo - d..hi - d] == s[lo..hi]
  {
  }

  lemma ReverseFirst<T>(s: seq<T>, n: nat)
    ensures Reverse(First(Reverse(s), n)) == Last(s, n)
  {
  }

  lemma FirstOfFirst<T>(s: seq<T>, n: nat)
    ensures First(First(s, n + 1), n) == First(s, n)
    ensures |First(s, n + 1)| > n <==> |s| > n
  {
  }

  /** Fetching up to a target in two reads is the same as one read of the concatenation. */
  lemma FirstOfConcat<T>(a: seq<T>, b: seq<T>, n: nat)
    ensures |First(a, n)| <= n
    ensures First(a, n) + First(b, n - |First(a, n)|) == First(a + b, n)
  {
  }

  predicate Ascending(s: seq<int>) { forall i, j :: 0 <= i < j < |s| ==> s[i] < s[j] }

  lemma LeastExists(s: set<int>)
    requires s != {}
    ensures exists m :: m in s && forall x :: x in s ==> m <= x
  {
    var m := AnyOf(s);
    if s != {m} {
      LeastExists(s - {m});
      var k :| k in s - {m} && forall x :: x in s - {m} ==> k <= x;
      var least := Min(m, k);
      assert forall x :: x in s ==> x == m || x in s - {m};
      assert least in s && forall x :: x in s ==> least <= x;
    }
  }

  /** The members in ascending order: a sorted directory listing, or a primary key scan. */
  function SortedInts(s: set<int>): (r: seq<int>)
    ensures Ascending(r) && (forall x :: x in r <==> x in s)
  {
    if s == {} then []
    else
      LeastExists(s);
      var m :| m in s && forall x :: x in s ==> m <= x;
      [m] + SortedInts(s - {m})
  }

  lemma {:induction false} AscendingIsUnique(a: seq<int>, b: seq<int>)
    requires Ascending(a) && Ascending(b) && forall x :: x in a <==> x in b
    ensures a == b
  {
    assert a != [] ==> a[0] in a && a[0] in b;
    assert b != [] ==> b[0] in b && b[0] in a;
    if a != [] && b != [] {
      assert a[0] == b[0];
      forall x ensures x in a[1..] <==> x in b[1..] {
        HeadOrTail(a, x);
        HeadOrTail(b, x);
        assert a[0] !in a[1..] && b[0] !in b[1..];
      }
      AscendingIsUnique(a[1..], b[1..]);
    }
  }

  lemma SortedWithGreatest(s: set<int>, k: int)
    requires forall x :: x in s ==> x < k
    ensures SortedInts(s + {k}) == SortedInts(s) + [k]
  {
    var r := SortedInts(s) + [k];
    forall i, j | 0 <= i < j < |r| ensures r[i] < r[j] {
      assert SortedInts(s)[i] in SortedInts(s);
    }
    forall x ensures x in r <==> x in s + {k} {}
    AscendingIsUnique(SortedInts(s + {k}), r);
  }
}
