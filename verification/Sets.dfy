/** Sets of small numbers, visited in increasing order, and sequences without repeats. */
module Sets {

  lemma {:induction false} LeastElement(s: set<nat>) returns (x: nat)
    requires s != {}
    ensures x in s && forall y :: y in s ==> x <= y
  {
    var z :| z in s;
    x := z;
    var rest := s - {z};
    assert s == rest + {z};
    if rest != {} {
      var m := LeastElement(rest);
      if m < x {
        x := m;
      }
    }
  }

  lemma {:induction false} GreatestElement(s: set<nat>) returns (x: nat)
    requires s != {}
    ensures x in s && forall y :: y in s ==> y <= x
  {
    var z :| z in s;
    x := z;
    var rest := s - {z};
    assert s == rest + {z};
    if rest != {} {
      var m := GreatestElement(rest);
      if m > x {
        x := m;
      }
    }
  }

  function First(s: set<nat>): (r: nat)
    requires s != {}
    ensures r in s
    ensures forall y :: y in s ==> r <= y
  {
    assert exists x :: x in s && forall y :: y in s ==> x <= y by {
      var x := LeastElement(s);
    }
    var x :| x in s && forall y :: y in s ==> x <= y;
    x
  }

  function Last(s: set<nat>): (r: nat)
    requires s != {}
    ensures r in s
    ensures forall y :: y in s ==> y <= r
  {
    assert exists x :: x in s && forall y :: y in s ==> y <= x by {
      var x := GreatestElement(s);
    }
    var x :| x in s && forall y :: y in s ==> y <= x;
    x
  }

  /** The set of all positions below n. */
  function Fill(n: nat): (r: set<nat>)
    ensures forall i: nat :: i in r <==> i < n
  {
    if n == 0 then {} else Fill(n - 1) + {n - 1}
  }

  /** A part has no more members. */
  lemma {:induction false} Subset<T>(a: set<T>, b: set<T>)
    requires a <= b
    ensures |a| <= |b|
  {
    assert b == a + (b - a);
  }

  ghost predicate Distinct<T>(s: seq<T>) {
    forall i, j :: 0 <= i < j < |s| ==> s[i] != s[j]
  }

  function Elements(s: seq<nat>): set<nat> {
    set x | x in s
  }

  lemma {:induction false} DistinctCount(s: seq<nat>)
    requires Distinct(s)
    ensures |Elements(s)| == |s|
  {
    if s != [] {
      DistinctCount(s[1..]);
      assert Elements(s) == {s[0]} + Elements(s[1..]);
    }
  }

  lemma {:induction false} ElementsConcat(a: seq<nat>, b: seq<nat>)
    ensures Elements(a + b) == Elements(a) + Elements(b)
  {
  }

  lemma {:induction false} DistinctConcat(a: seq<nat>, b: seq<nat>)
    ensures Distinct(a + b) <==> Distinct(a) && Distinct(b) && Elements(a) !! Elements(b)
  {
    if Distinct(a + b) {
      forall i, j | 0 <= i < j < |a| ensures a[i] != a[j] {
        assert (a + b)[i] == a[i] && (a + b)[j] == a[j];
      }
      forall i, j | 0 <= i < j < |b| ensures b[i] != b[j] {
        assert (a + b)[|a| + i] == b[i] && (a + b)[|a| + j] == b[j];
      }
      forall i, j | 0 <= i < |a| && 0 <= j < |b| ensures a[i] != b[j] {
        assert (a + b)[i] == a[i] && (a + b)[|a| + j] == b[j];
      }
    }
    if Distinct(a) && Distinct(b) && Elements(a) !! Elements(b) {
      forall i, j | 0 <= i < j < |a + b| ensures (a + b)[i] != (a + b)[j] {
        if i < |a| <= j {
          assert a[i] in Elements(a) && b[j - |a|] in Elements(b);
        }
      }
    }
  }

  lemma {:induction false} DistinctTail(s: seq<nat>)
    requires Distinct(s) && s != []
    ensures Distinct(s[1..]) && s[0] in Elements(s)
    ensures Elements(s) - {s[0]} == Elements(s[1..])
  {
    assert s == [s[0]] + s[1..];
    DistinctConcat([s[0]], s[1..]);
    ElementsConcat([s[0]], s[1..]);
    assert Elements([s[0]]) == {s[0]};
  }

  /** The elements of s that lie in keep, in the order of s. */
  function Filter(s: seq<nat>, keep: set<nat>): (r: seq<nat>)
    ensures Elements(r) == Elements(s) * keep
    ensures |r| <= |s|
  {
    if s == [] then []
    else
      var rest := Filter(s[1..], keep);
      assert s == [s[0]] + s[1..];
      assert Elements(s) == {s[0]} + Elements(s[1..]);
      if s[0] in keep then
        var r := [s[0]] + rest;
        assert Elements(r) == {s[0]} + Elements(rest);
        r
      else rest
  }

  lemma {:induction false} FilterConcat(a: seq<nat>, b: seq<nat>, keep: set<nat>)
    ensures Filter(a + b, keep) == Filter(a, keep) + Filter(b, keep)
  {
    if a == [] {
      assert a + b == b;
    } else {
      assert (a + b)[1..] == a[1..] + b;
      assert (a + b)[0] == a[0];
      FilterConcat(a[1..], b, keep);
      assert Filter(a + b, keep) == if a[0] in keep then [a[0]] + Filter(a[1..] + b, keep)
          else Filter(a[1..] + b, keep);
    }
  }

  lemma {:induction false} FilterDistinct(s: seq<nat>, keep: set<nat>)
    requires Distinct(s)
    ensures Distinct(Filter(s, keep))
  {
    if s != [] {
      FilterDistinct(s[1..], keep);
      assert s == [s[0]] + s[1..];
      DistinctConcat([s[0]], s[1..]);
      DistinctConcat([s[0]], Filter(s[1..], keep));
    }
  }

  lemma {:induction false} FilterFilter(s: seq<nat>, keep: set<nat>, keep': set<nat>)
    ensures Filter(Filter(s, keep), keep') == Filter(s, keep * keep')
  {
    if s != [] {
      FilterFilter(s[1..], keep, keep');
      if s[0] in keep {
        assert Filter(s, keep)[1..] == Filter(s[1..], keep);
      }
    }
  }

  lemma {:induction false} FilterAll(s: seq<nat>, keep: set<nat>)
    requires Elements(s) <= keep
    ensures Filter(s, keep) == s
  {
    if s != [] {
      assert s[0] in Elements(s);
      assert Elements(s[1..]) <= Elements(s);
      FilterAll(s[1..], keep);
    }
  }

  lemma {:induction false} FilterNone(s: seq<nat>, keep: set<nat>)
    requires Elements(s) !! keep
    ensures Filter(s, keep) == []
  {
    if s != [] {
      assert s[0] in Elements(s);
      assert Elements(s[1..]) <= Elements(s);
      FilterNone(s[1..], keep);
    }
  }

  /** Only membership of the sequence's own elements matters. */
  lemma {:induction false} FilterSame(s: seq<nat>, keep: set<nat>, keep': set<nat>)
    requires forall x :: x in s ==> (x in keep <==> x in keep')
    ensures Filter(s, keep) == Filter(s, keep')
  {
    if s != [] {
      FilterSame(s[1..], keep, keep');
    }
  }
}
