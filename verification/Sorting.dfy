/** Sorted lists of host names, as sort.Strings makes them: byte-wise order. */
module Sorting {

  predicate Leq(a: string, b: string) {
    a == "" || (b != "" && (a[0] < b[0] || (a[0] == b[0] && Leq(a[1..], b[1..]))))
  }

  /** Two names agree up to position `k`. */
  predicate AgreeTo(a: string, b: string, k: nat) {
    k <= |a| && k <= |b| && a[..k] == b[..k]
  }

  /** One name comes before another if it begins it, or by the first byte in which they differ. */
  ghost predicate BytewiseLeq(a: string, b: string) {
    a <= b || exists k: nat :: AgreeTo(a, b, k) && k < |a| && k < |b| && a[k] < b[k]
  }

  lemma {:induction false} LeqIsBytewise(a: string, b: string)
    ensures Leq(a, b) <==> BytewiseLeq(a, b)
    decreases a
  {
    if a != "" && b != "" && a[0] == b[0] {
      LeqIsBytewise(a[1..], b[1..]);
      FirstByteAgrees(a, b);
    } else if a != "" && b != "" {
      FirstByteDiffers(a, b);
    }
  }

  lemma FirstByteDiffers(a: string, b: string)
    requires a != "" && b != "" && a[0] != b[0]
    ensures BytewiseLeq(a, b) <==> a[0] < b[0]
  {
    assert !(a <= b);
    if a[0] < b[0] {
      assert AgreeTo(a, b, 0);
    }
    forall k: nat | AgreeTo(a, b, k) ensures k == 0 {
      if k > 0 {
        AgreeFromFirst(a, b, k);
      }
    }
  }

  lemma AgreeFromFirst(a: string, b: string, k: nat)
    requires k > 0 && AgreeTo(a, b, k)
    ensures a[0] == b[0]
  {
    assert a[..k][0] == b[..k][0];
  }

  lemma FirstByteAgrees(a: string, b: string)
    requires a != "" && b != "" && a[0] == b[0]
    ensures BytewiseLeq(a, b) <==> BytewiseLeq(a[1..], b[1..])
  {
    assert forall k: nat :: AgreeTo(a, b, k + 1) <==> AgreeTo(a[1..], b[1..], k) by {
      forall k: nat ensures AgreeTo(a, b, k + 1) <==> AgreeTo(a[1..], b[1..], k) {
        if k + 1 <= |a| && k + 1 <= |b| {
          assert a[..k + 1] == [a[0]] + a[1..][..k] && b[..k + 1] == [b[0]] + b[1..][..k];
        }
      }
    }
    if k: nat :| AgreeTo(a, b, k) && k < |a| && k < |b| && a[k] < b[k] {
      assert AgreeTo(a[1..], b[1..], k - 1);
    }
    if k: nat :| AgreeTo(a[1..], b[1..], k) && k < |a| - 1 && k < |b| - 1 && a[1..][k] < b[1..][k] {
      assert AgreeTo(a, b, k + 1) && a[k + 1] < b[k + 1];
    }
    assert a <= b <==> a[1..] <= b[1..];
  }

  lemma {:induction false} LeqTotal(a: string, b: string)
    ensures Leq(a, b) || Leq(b, a)
    ensures Leq(a, b) && Leq(b, a) ==> a == b
    decreases a
  {
    if a != "" && b != "" {
      LeqTotal(a[1..], b[1..]);
      if a[0] == b[0] && a[1..] == b[1..] {
        assert a == [a[0]] + a[1..] && b == [b[0]] + b[1..];
      }
    }
  }

  lemma {:induction false} LeqTransitive(a: string, b: string, c: string)
    requires Leq(a, b) && Leq(b, c)
    ensures Leq(a, c)
    decreases a
  {
    if a != "" && a[0] == b[0] == c[0] {
      LeqTransitive(a[1..], b[1..], c[1..]);
    }
  }

  ghost predicate IsLeast(least: string, names: set<string>) {
    least in names && forall n | n in names :: Leq(least, n)
  }

  /** A set with any names at all has a least one ... */
  lemma {:induction false} HasLeast(names: set<string>)
    requires names != {}
    ensures exists n :: IsLeast(n, names)
    decreases names
  {
    var n :| n in names;
    LeqTotal(n, n);
    if names == {n} {
      assert IsLeast(n, names);
    } else {
      var rest := names - {n};
      assert names == rest + {n};
      HasLeast(rest);
      var m :| IsLeast(m, rest);
      LeqTotal(m, n);
      if Leq(m, n) {
        assert IsLeast(m, names);
      } else {
        forall k | k in names ensures Leq(n, k) {
          if k != n {
            LeqTransitive(n, m, k);
          }
        }
        assert IsLeast(n, names);
      }
    }
  }

  /** ... and no more than one. */
  lemma LeastIsUnique(a: string, b: string, names: set<string>)
    requires IsLeast(a, names) && IsLeast(b, names)
    ensures a == b
  {
    LeqTotal(a, b);
  }

  predicate Sorted(names: seq<string>) {
    forall i, j | 0 <= i < j < |names| :: Leq(names[i], names[j])
  }

  function Insert(name: string, names: seq<string>): (r: seq<string>)
    ensures multiset(r) == multiset{name} + multiset(names)
  {
    if names == [] then [name]
    else if Leq(name, names[0]) then [name] + names
    else
      assert names == [names[0]] + names[1..];
      [names[0]] + Insert(name, names[1..])
  }

  /** sort.Strings. */
  function Sort(names: seq<string>): (r: seq<string>)
    ensures multiset(r) == multiset(names)
    ensures |r| == |names|
  {
    if names == [] then []
    else
      assert names == [names[0]] + names[1..];
      var r := Insert(names[0], Sort(names[1..]));
      assert |r| == |multiset(r)|;
      r
  }

  lemma {:induction false} InsertSorts(name: string, names: seq<string>)
    requires Sorted(names)
    ensures Sorted(Insert(name, names))
    decreases names
  {
    if names != [] {
      if Leq(name, names[0]) {
        forall n | n in names ensures Leq(name, n) {
          LeqTotal(names[0], names[0]);
          LeqTransitive(name, names[0], n);
        }
      } else {
        var rest := Insert(name, names[1..]);
        InsertSorts(name, names[1..]);
        LeqTotal(name, names[0]);
        forall n | n in rest ensures Leq(names[0], n) {
          assert n in multiset(rest);
          LeqTotal(names[0], names[0]);
        }
      }
    }
  }

  lemma {:induction false} SortSorts(names: seq<string>)
    ensures Sorted(Sort(names))
  {
    if names != [] {
      SortSorts(names[1..]);
      InsertSorts(names[0], Sort(names[1..]));
    }
  }

  lemma SortKeeps(names: seq<string>)
    ensures forall n :: n in Sort(names) <==> n in names
  {
    forall n: string ensures n in Sort(names) <==> n in names {
      assert n in names <==> n in multiset(names);
      assert n in Sort(names) <==> n in multiset(Sort(names));
    }
  }

  /** The head of a sorted list is the least of its names. */
  lemma HeadIsLeast(names: seq<string>, all: set<string>)
    requires Sorted(names) && names != [] && forall n :: n in names <==> n in all
    ensures IsLeast(names[0], all)
  {
    forall n | n in all ensures Leq(names[0], n) {
      var i :| 0 <= i < |names| && names[i] == n;
      if i == 0 {
        LeqTotal(n, n);
      }
    }
  }

  /** The call of sort.Strings. */
  method SortStrings(names: seq<string>) returns (sorted: seq<string>)
    ensures Sorted(sorted) && |sorted| == |names|
    ensures forall n :: n in sorted <==> n in names
  {
    SortSorts(names);
    SortKeeps(names);
    sorted := Sort(names);
  }

  /** The names as an iteration over a map meets them: each once, in no particular order. */
  method InSomeOrder(names: set<string>) returns (list: seq<string>)
    ensures |list| == |names| && forall n :: n in list <==> n in names
  {
    list := [];
    var left := names;
    while left != {}
      invariant left <= names && |list| == |names| - |left|
      invariant forall n :: n in list <==> n in names - left
      decreases left
    {
      var name :| name in left;
      left := left - {name};
      list := list + [name];
    }
  }
}
