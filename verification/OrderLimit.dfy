/**
 * The meaning of `ORDER BY major, minor, id LIMIT n`, which the delivery worker, the retention
 * job and the cleanup worker all rely on: the n least keys of a set, least first.
 */
module OrderLimit {
  import opened Common

  datatype Key = Key(major: int, minor: int, id: nat)

  predicate Less(a: Key, b: Key) {
    || a.major < b.major
    || (a.major == b.major && a.minor < b.minor)
    || (a.major == b.major && a.minor == b.minor && a.id < b.id)
  }

  ghost predicate IsLeast(k: Key, s: set<Key>) {
    k in s && forall j | j in s && j != k :: Less(k, j)
  }

  lemma {:induction false} LeastExists(s: set<Key>)
    requires s != {}
    ensures exists k :: IsLeast(k, s)
  {
    var x :| x in s;
    if s == {x} {
      assert IsLeast(x, s);
    } else {
      LeastExists(s - {x});
      var m :| IsLeast(m, s - {x});
      var k := if Less(x, m) then x else m;
      forall j | j in s && j != k ensures Less(k, j) {
        assert j == x || j == m || Less(m, j);
      }
      assert IsLeast(k, s);
    }
  }

  function Least(s: set<Key>): (k: Key)
    requires s != {}
    ensures IsLeast(k, s)
  {
    LeastExists(s);
    assert forall a, b | IsLeast(a, s) && IsLeast(b, s) && a != b :: Less(a, b) && Less(b, a);
    var k :| k in s && forall j | j in s && j != k :: Less(k, j);
    k
  }

  function Take(s: set<Key>, n: nat): (r: seq<Key>)
    decreases n
  {
    if n == 0 || s == {} then [] else [Least(s)] + Take(s - {Least(s)}, n - 1)
  }

  function Elements<T(==)>(r: seq<T>): set<T> {
    set k | k in r
  }

  function KeyIds(ks: seq<Key>): seq<nat> {
    seq(|ks|, i requires 0 <= i < |ks| => ks[i].id)
  }

  /** `r` is a correct answer to `SELECT ... FROM s ORDER BY ... LIMIT n`. */
  ghost predicate IsTake(s: set<Key>, n: nat, r: seq<Key>) {
    && |r| == Min(n, |s|)
    && Elements(r) <= s
    && (forall i, j | 0 <= i < j < |r| :: Less(r[i], r[j]))
    && (forall i, x | 0 <= i < |r| && x in s && x !in r :: Less(r[i], x))
  }

  lemma {:induction false} TakeIsTake(s: set<Key>, n: nat)
    ensures IsTake(s, n, Take(s, n))
    decreases n
  {
    if n == 0 || s == {} {
    } else {
      var k := Least(s);
      TakeIsTake(s - {k}, n - 1);
      var r := Take(s - {k}, n - 1);
      assert forall x | x in r :: x in Elements(r);
      assert Take(s, n) == [k] + r;
      assert forall x | x in s && x !in [k] + r :: x in s - {k} && x !in r;
    }
  }

  /** The answer is unique: the order is total, so the query is deterministic. */
  lemma {:induction false} TakeUnique(s: set<Key>, n: nat, r: seq<Key>)
    requires IsTake(s, n, r)
    ensures r == Take(s, n)
    decreases n
  {
    if r == [] {
    } else {
      var k := Least(s);
      assert r[0] in Elements(r);
      assert r[0] == k || Less(k, r[0]);
      assert k in r || Less(r[0], k);
      var i :| 0 <= i < |r| && r[i] == k;
      assert i == 0 || Less(r[0], r[i]);
      var rest := r[1..];
      assert r == [k] + rest;
      assert IsTake(s - {k}, n - 1, rest) by {
        forall j | 0 <= j < |rest| ensures rest[j] in s - {k} {
          assert r[j + 1] in Elements(r);
          assert Less(r[0], r[j + 1]);
        }
        forall j, x | 0 <= j < |rest| && x in s - {k} && x !in rest ensures Less(rest[j], x) {
          assert x !in r;
          assert Less(r[j + 1], x);
        }
      }
      TakeUnique(s - {k}, n - 1, rest);
    }
  }

  lemma {:induction false} ElementsCard<T>(r: seq<T>)
    requires forall i, j | 0 <= i < j < |r| :: r[i] != r[j]
    ensures |Elements(r)| == |r|
  {
    if r == [] {
    } else {
      var rest := r[1..];
      ElementsCard(rest);
      assert forall j | 0 <= j < |rest| :: rest[j] == r[j + 1] && r[0] != r[j + 1];
      assert Elements(r) == {r[0]} + Elements(rest);
    }
  }

  function IdsOf(ks: set<Key>): set<nat> {
    set k | k in ks :: k.id
  }

  lemma {:induction false} IdsCard(ks: set<Key>)
    requires forall a, b | a in ks && b in ks && a.id == b.id :: a == b
    ensures |IdsOf(ks)| == |ks|
  {
    if ks == {} {
    } else {
      var k :| k in ks;
      IdsCard(ks - {k});
      assert IdsOf(ks) == IdsOf(ks - {k}) + {k.id};
    }
  }

  /** In terms of ids: a batch takes n of them, or all, and each one taken before each one left. */
  lemma TakenIds(s: set<Key>, n: nat)
    requires forall a, b | a in s && b in s && a.id == b.id :: a == b
    ensures var e := Elements(Take(s, n));
      && IdsOf(e) <= IdsOf(s) && |IdsOf(e)| == Min(n, |IdsOf(s)|)
      && forall a, b | a in s && b in s && a.id in IdsOf(e) && b.id !in IdsOf(e) :: Less(a, b)
  {
    OldestFirst(s, n, 0);
    var r := Take(s, n);
    var e := Elements(r);
    IdsCard(s);
    IdsCard(e);
    TakeIsTake(s, n);
    forall a, b | a in s && b in s && a.id in IdsOf(e) && b.id !in IdsOf(e) ensures Less(a, b) {
      assert a in e && b !in e;
      var i :| 0 <= i < |r| && r[i] == a;
      assert b !in r;
    }
  }

  /** The part of the backlog that had its turn by time `t`. */
  ghost function UpTo(s: set<Key>, t: int): set<Key> {
    set k | k in s && k.major <= t
  }

  /** A batch either contains the whole backlog of time `t`, or nothing that became due later. */
  lemma OldestFirst(s: set<Key>, n: nat, t: int)
    ensures UpTo(s, t) <= Elements(Take(s, n)) || Elements(Take(s, n)) <= UpTo(s, t)
    ensures |Elements(Take(s, n))| == Min(n, |s|) && Elements(Take(s, n)) <= s
  {
    TakeIsTake(s, n);
    var r := Take(s, n);
    var e := Elements(r);
    ElementsCard(r);
    if late :| late in e && late !in UpTo(s, t) {
      forall x | x in UpTo(s, t) ensures x in e {
        var i :| 0 <= i < |r| && r[i] == late;
        assert x in r || Less(r[i], x);
      }
    }
  }

  /**
   * Nothing that became due later can delay the backlog of time `t`:
   * a batch of n removes n of it, or all of it.
   */
  lemma TakeDrainsBacklog(s: set<Key>, n: nat, t: int)
    ensures |UpTo(s - Elements(Take(s, n)), t)| == Max(0, |UpTo(s, t)| - n)
  {
    OldestFirst(s, n, t);
    var e := Elements(Take(s, n));
    var due := UpTo(s, t);
    assert UpTo(s - e, t) == due - e;
    SubsetCard(due, s);
    if due <= e {
      SubsetCard(due, e);
      assert due - e == {};
    } else {
      MinusCard(due, e);
      assert due * e == e;
      SubsetCard(e, due);
      if |s| <= n { SubsetCard(e, s); }
    }
  }

  /**
   * With a set `stuck` of items that survive every batch, a batch of n still retires
   * n - |stuck| of the others, or all of them.
   */
  lemma TakeDrainsAroundStuck(s: set<Key>, n: nat, stuck: set<Key>, t: int)
    requires |stuck| <= n
    ensures |UpTo(s, t) - stuck - Elements(Take(s, n))| <= Max(0, |UpTo(s, t) - stuck| - (n - |stuck|))
  {
    OldestFirst(s, n, t);
    var e := Elements(Take(s, n));
    var good := UpTo(s, t) - stuck;
    if UpTo(s, t) <= e || |s| <= n {
      if |s| <= n { SubsetCard(e, s); }
      assert good - e == {};
    } else {
      MinusCard(good, e);
      assert e == good * e + e * stuck;
      DisjointCard(good * e, e * stuck);
      SubsetCard(e * stuck, stuck);
    }
  }
}
