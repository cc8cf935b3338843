/**
  Python's ordering of `str` values (code point by code point, a proper prefix
  first) and `sorted(set(lines))`, which both shells use to deduplicate and
  order the hostnames the discovery tools print.
 */
module Order {

  /** Python's `a < b` on strings. */
  predicate Below(a: string, b: string)
  {
    if a == [] then b != []
    else if b == [] then false
    else a[0] < b[0] || (a[0] == b[0] && Below(a[1..], b[1..]))
  }

  lemma {:induction false} BelowIrreflexive(a: string)
    ensures !Below(a, a)
  {
    if a != [] { BelowIrreflexive(a[1..]); }
  }

  lemma {:induction false} BelowTransitive(a: string, b: string, c: string)
    requires Below(a, b) && Below(b, c)
    ensures Below(a, c)
  {
    if a != [] && b != [] && c != [] && a[0] == b[0] == c[0] {
      BelowTransitive(a[1..], b[1..], c[1..]);
    }
  }

  lemma {:induction false} BelowTotal(a: string, b: string)
    ensures a == b || Below(a, b) || Below(b, a)
  {
    if a != [] && b != [] && a[0] == b[0] {
      BelowTotal(a[1..], b[1..]);
      if a[1..] == b[1..] {
        assert a == [a[0]] + a[1..] && b == [b[0]] + b[1..];
      }
    }
  }

  lemma BelowAsymmetric(a: string, b: string)
    requires Below(a, b)
    ensures !Below(b, a)
  {
    if Below(b, a) {
      BelowTransitive(a, b, a);
      BelowIrreflexive(a);
    }
  }

  /** No string sorts before the empty string. */
  lemma NothingBelowEmpty(a: string)
    ensures !Below(a, "")
  {
  }

  predicate StrictlyAscending(q: seq<string>) {
    forall i, j :: 0 <= i < j < |q| ==> Below(q[i], q[j])
  }

  /** `m` is the least element of `s`. */
  predicate IsLeast(m: string, s: set<string>) {
    m in s && forall y :: y in s ==> y == m || Below(m, y)
  }

  lemma {:induction false} LeastExists(s: set<string>)
    requires s != {}
    ensures exists m :: IsLeast(m, s)
    decreases |s|
  {
    var x :| x in s;
    if s - {x} == {} {
      forall y | y in s ensures y == x {
        assert y !in s - {x};
      }
      assert IsLeast(x, s);
    } else {
      LeastExists(s - {x});
      var m :| IsLeast(m, s - {x});
      BelowTotal(x, m);
      if Below(x, m) {
        forall y | y in s ensures y == x || Below(x, y) {
          if y != x && y != m { BelowTransitive(x, m, y); }
        }
        assert IsLeast(x, s);
      } else {
        assert IsLeast(m, s);
      }
    }
  }

  lemma LeastUnique(s: set<string>)
    ensures forall m, m' :: IsLeast(m, s) && IsLeast(m', s) ==> m == m'
  {
    forall m, m' | IsLeast(m, s) && IsLeast(m', s) ensures m == m' {
      if m != m' { BelowAsymmetric(m, m'); }
    }
  }

  /**
    Python `sorted(s)` for a set of strings: the elements of `s`, each once, in
    ascending order.
   */
  function SortSet(s: set<string>): (q: seq<string>)
    ensures StrictlyAscending(q)
    ensures forall x :: x in q <==> x in s
    ensures |q| == |s|
    decreases |s|
  {
    if s == {} then []
    else
      LeastExists(s);
      LeastUnique(s);
      var m :| IsLeast(m, s);
      var rest := SortSet(s - {m});
      assert forall j :: 0 <= j < |rest| ==> Below(m, rest[j]) by {
        forall j | 0 <= j < |rest| ensures Below(m, rest[j]) {
          assert rest[j] in s - {m};
        }
      }
      [m] + rest
  }

  lemma HeadIn(q: seq<string>)
    requires q != []
    ensures q[0] in q
  {
  }

  /** A strictly ascending sequence is determined by its elements. */
  lemma {:induction false} AscendingUnique(p: seq<string>, q: seq<string>)
    requires StrictlyAscending(p) && StrictlyAscending(q)
    requires forall x :: x in p <==> x in q
    ensures p == q
    decreases |p|
  {
    if p != [] {
      assert q != [] by { assert p[0] in q; }
      assert p[0] == q[0] by {
        if p[0] != q[0] {
          assert q[0] in p && p[0] in q;
          var i :| 0 <= i < |p| && p[i] == q[0];
          var j :| 0 <= j < |q| && q[j] == p[0];
          assert i > 0 && j > 0;
          assert Below(p[0], q[0]) && Below(q[0], p[0]);
          BelowAsymmetric(p[0], q[0]);
        }
      }
      forall x ensures x in p[1..] <==> x in q[1..] {
        if x in p[1..] {
          var i :| 0 <= i < |p[1..]| && p[1..][i] == x;
          assert p[i + 1] == x;
          BelowIrreflexive(p[0]);
          assert x != q[0];
          assert x in q;
          var k :| 0 <= k < |q| && q[k] == x;
          assert k != 0 && q[1..][k - 1] == x;
        }
        if x in q[1..] {
          var j :| 0 <= j < |q[1..]| && q[1..][j] == x;
          assert q[j + 1] == x;
          BelowIrreflexive(q[0]);
          assert x != p[0];
          assert x in p;
          var k :| 0 <= k < |p| && p[k] == x;
          assert k != 0 && p[1..][k - 1] == x;
        }
      }
      AscendingUnique(p[1..], q[1..]);
      assert p == [p[0]] + p[1..] && q == [q[0]] + q[1..];
    } else {
      if q != [] {
        HeadIn(q);
        assert false;
      }
    }
  }

  /** Only the set `{""}` sorts into a sequence whose last line is empty. */
  lemma SortSetLastNonEmpty(s: set<string>)
    requires s != {""}
    ensures var q := SortSet(s); q == [] || q[|q| - 1] != ""
  {
    var q := SortSet(s);
    if |q| == 1 {
      assert q[0] in s;
      assert s == {q[0]} by {
        forall y | y in s ensures y == q[0] { assert y in q; }
      }
    } else if |q| > 1 {
      NothingBelowEmpty(q[0]);
      assert Below(q[0], q[|q| - 1]);
    }
  }
}
