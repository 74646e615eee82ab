/** Byte-lexicographic order, the order of `BTreeMap<String, _>` and of SQL `ORDER BY` on text. */
module Order {
  import opened Prelude

  predicate Less(a: Bytes, b: Bytes) {
    b != [] && (a == [] || a[0] < b[0] || (a[0] == b[0] && Less(a[1..], b[1..])))
  }

  lemma Irreflexive(a: Bytes)
    ensures !Less(a, a)
  {
  }

  lemma {:induction false} Transitive(a: Bytes, b: Bytes, c: Bytes)
    requires Less(a, b) && Less(b, c)
    ensures Less(a, c)
  {
    if a != [] && a[0] == b[0] && b[0] == c[0] {
      Transitive(a[1..], b[1..], c[1..]);
    }
  }

  lemma {:induction false} Total(a: Bytes, b: Bytes)
    ensures a == b || Less(a, b) || Less(b, a)
  {
    if a != [] && b != [] && a[0] == b[0] {
      Total(a[1..], b[1..]);
      assert a == [a[0]] + a[1..] && b == [b[0]] + b[1..];
    }
  }

  predicate StrictlySorted(s: seq<Bytes>) {
    forall i, j :: 0 <= i < j < |s| ==> Less(s[i], s[j])
  }

  predicate IsLeast(m: Bytes, s: set<Bytes>) {
    m in s && forall x :: x in s && x != m ==> Less(m, x)
  }

  lemma {:induction false} LeastExists(s: set<Bytes>) returns (m: Bytes)
    requires s != {}
    ensures IsLeast(m, s)
  {
    var x :| x in s;
    if s == {x} {
      m := x;
    } else {
      var rest := s - {x};
      assert s == {x} + rest;
      var y := LeastExists(rest);
      Total(x, y);
      if Less(x, y) {
        m := x;
        forall z | z in s && z != x ensures Less(x, z) {
          assert z in rest;
          if z != y { Transitive(x, y, z); }
        }
      } else {
        m := y;
      }
    }
  }

  lemma LeastUnique(a: Bytes, b: Bytes, s: set<Bytes>)
    requires IsLeast(a, s) && IsLeast(b, s)
    ensures a == b
  {
    if a != b {
      Transitive(a, b, a);
      Irreflexive(a);
    }
  }

  function Least(s: set<Bytes>): (m: Bytes)
    requires s != {}
    ensures IsLeast(m, s)
  {
    assert exists m :: IsLeast(m, s) by { var m := LeastExists(s); }
    assert forall a, b :: IsLeast(a, s) && IsLeast(b, s) ==> a == b by {
      forall a, b | IsLeast(a, s) && IsLeast(b, s) ensures a == b { LeastUnique(a, b, s); }
    }
    var m :| m in s && IsLeast(m, s);
    m
  }

  /** The elements of a set in ascending order. */
  function Sorted(s: set<Bytes>): (r: seq<Bytes>)
    ensures StrictlySorted(r)
    ensures forall x :: x in r <==> x in s
    ensures |r| == |s|
  {
    if s == {} then [] else
      var m := Least(s);
      [m] + Sorted(s - {m})
  }
}
