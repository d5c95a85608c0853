/** The order of sort.Strings and of the keys json.Marshal writes. */
module StringOrder {

  predicate Before(a: string, b: string) {
    b != [] && (a == [] || a[0] < b[0] || (a[0] == b[0] && Before(a[1..], b[1..])))
  }

  lemma {:induction false} BeforeIsIrreflexive(a: string)
    ensures !Before(a, a)
  {
    if a == [] {
    } else {
      BeforeIsIrreflexive(a[1..]);
    }
  }

  lemma {:induction false} BeforeIsTotal(a: string, b: string)
    ensures !(Before(a, b) && Before(b, a)) && (Before(a, b) || Before(b, a) || a == b) && !Before(a, a)
  {
    BeforeIsIrreflexive(a);
    if a == [] || b == [] {
    } else if a[0] == b[0] {
      BeforeIsTotal(a[1..], b[1..]);
      assert a == [a[0]] + a[1..] && b == [b[0]] + b[1..];
    }
  }

  lemma {:induction false} BeforeIsTransitive(a: string, b: string, c: string)
    requires Before(a, b) && Before(b, c)
    ensures Before(a, c)
  {
    if a == [] {
    } else if a[0] == b[0] == c[0] {
      BeforeIsTransitive(a[1..], b[1..], c[1..]);
    }
  }

  /** The texts agree up to i; there a ends, or has the smaller character. */
  ghost predicate FirstDifference(a: string, b: string, i: nat) {
    i <= |a| && i < |b| && a[..i] == b[..i] && (i == |a| || a[i] < b[i])
  }

  /** Before is the lexicographic order by characters, a prefix first. */
  lemma {:induction false} BeforeIsLexicographic(a: string, b: string)
    ensures Before(a, b) <==> exists i: nat :: FirstDifference(a, b, i)
  {
    if a == [] || b == [] || a[0] != b[0] {
      if b != [] && (a == [] || a[0] < b[0]) { assert FirstDifference(a, b, 0); }
      assert forall i: nat | i >= 1 && i <= |a| && i < |b| :: a[..i][0] == a[0] && b[..i][0] == b[0];
    } else {
      BeforeIsLexicographic(a[1..], b[1..]);
      if i: nat :| FirstDifference(a[1..], b[1..], i) { DifferenceShifts(a, b, i); }
      if j: nat :| FirstDifference(a, b, j) {
        assert j >= 1;
        DifferenceShifts(a, b, j - 1);
      }
    }
  }

  lemma DifferenceShifts(a: string, b: string, i: nat)
    requires a != [] && b != [] && a[0] == b[0]
    ensures FirstDifference(a[1..], b[1..], i) <==> FirstDifference(a, b, i + 1)
  {
    if i + 1 <= |a| && i + 1 <= |b| {
      assert a[..i + 1] == [a[0]] + a[1..][..i] && b[..i + 1] == [b[0]] + b[1..][..i];
      assert a[1..][..i] == a[..i + 1][1..] && b[1..][..i] == b[..i + 1][1..];
    }
  }

  ghost predicate IsLeast(k: string, s: set<string>) {
    k in s && forall j | j in s && j != k :: Before(k, j)
  }

  lemma {:induction false} LeastExists(s: set<string>)
    requires s != {}
    ensures exists k :: IsLeast(k, s)
  {
    var x :| x in s;
    if s == {x} {
      assert IsLeast(x, s);
    } else {
      LeastExists(s - {x});
      var m :| IsLeast(m, s - {x});
      BeforeIsTotal(x, m);
      var k := if Before(x, m) then x else m;
      forall j | j in s && j != k ensures Before(k, j) {
        if j != x && j != m && k == x { BeforeIsTransitive(x, m, j); }
      }
      assert IsLeast(k, s);
    }
  }

  lemma LeastIsUnique(a: string, b: string, s: set<string>)
    requires IsLeast(a, s) && IsLeast(b, s)
    ensures a == b
  {
    BeforeIsTotal(a, b);
  }

  function Least(s: set<string>): (k: string)
    requires s != {}
    ensures IsLeast(k, s)
  {
    LeastExists(s);
    assert forall a, b | a in s && b in s :: !(Before(a, b) && Before(b, a)) by {
      forall a, b | a in s && b in s ensures !(Before(a, b) && Before(b, a)) { BeforeIsTotal(a, b); }
    }
    var k :| k in s && forall j | j in s && j != k :: Before(k, j);
    k
  }
}
