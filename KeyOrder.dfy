/** The order in which the printers emit the items of a dict:
    `sorted(obj.items(), key=lambda t: t[0])`, that is Python's `<` on the
    key strings (code point by code point, a proper prefix first), with
    Python's stable sort. */
module KeyOrder {
  import opened PyJson

  /** Python's `a < b` on two strings. */
  predicate KeyLess(a: string, b: string)
  {
    if a == [] then b != []
    else b != [] && (a[0] < b[0] || (a[0] == b[0] && KeyLess(a[1..], b[1..])))
  }

  lemma {:induction false} KeyLessIrreflexive(a: string)
    ensures !KeyLess(a, a)
  {
    if a != [] {
      KeyLessIrreflexive(a[1..]);
    }
  }

  lemma {:induction false} KeyLessTransitive(a: string, b: string, c: string)
    requires KeyLess(a, b) && KeyLess(b, c)
    ensures KeyLess(a, c)
  {
    if a != [] && a[0] == b[0] && b[0] == c[0] {
      KeyLessTransitive(a[1..], b[1..], c[1..]);
    }
  }

  lemma {:induction false} KeyLessTotal(a: string, b: string)
    ensures a == b || KeyLess(a, b) || KeyLess(b, a)
  {
    if a != [] && b != [] && a[0] == b[0] {
      KeyLessTotal(a[1..], b[1..]);
      if a[1..] == b[1..] {
        assert a == [a[0]] + a[1..] && b == [b[0]] + b[1..];
      }
    }
  }

  lemma KeyLessAsymmetric(a: string, b: string)
    ensures !(KeyLess(a, b) && KeyLess(b, a))
  {
    if KeyLess(a, b) && KeyLess(b, a) {
      KeyLessTransitive(a, b, a);
      KeyLessIrreflexive(a);
    }
  }

  /** `!(b < a)`, written `a <= b` for a total order. */
  predicate KeyAtMost(a: string, b: string)
  {
    !KeyLess(b, a)
  }

  lemma KeyAtMostTransitive(a: string, b: string, c: string)
    requires KeyAtMost(a, b) && KeyAtMost(b, c)
    ensures KeyAtMost(a, c)
  {
    if KeyLess(c, a) {
      KeyLessTotal(a, b);
      if KeyLess(a, b) {
        KeyLessTransitive(c, a, b);
      }
    }
  }

  /** Items in ascending key order. */
  predicate SortedByKey(fs: seq<Field>)
  {
    forall i, j | 0 <= i < j < |fs| :: KeyAtMost(fs[i].key, fs[j].key)
  }

  /** Items that share a key are the same item; true of every dict. */
  predicate KeyDetermines(fs: seq<Field>)
  {
    forall i, j | 0 <= i < |fs| && 0 <= j < |fs| && fs[i].key == fs[j].key :: fs[i] == fs[j]
  }

  /** Places f before the first item whose key is not smaller than f's. */
  function Insert(f: Field, s: seq<Field>): (r: seq<Field>)
    requires SortedByKey(s)
    ensures SortedByKey(r)
    ensures multiset(r) == multiset(s) + multiset{f}
    ensures |r| == |s| + 1
    ensures LeavesFields(r) == Leaves(f.value) + LeavesFields(s)
    ensures ContainersFields(r) == Containers(f.value) + ContainersFields(s)
  {
    if s == [] || !KeyLess(s[0].key, f.key) then
      InsertAtFront(f, s);
      [f] + s
    else
      var t := Insert(f, s[1..]);
      InsertBehindHead(f, s, t);
      [s[0]] + t
  }

  lemma InsertAtFront(f: Field, s: seq<Field>)
    requires SortedByKey(s)
    requires s == [] || !KeyLess(s[0].key, f.key)
    ensures SortedByKey([f] + s)
    ensures ([f] + s)[1..] == s
  {
    var r := [f] + s;
    assert r[1..] == s;
    forall i, j | 0 <= i < j < |r|
      ensures KeyAtMost(r[i].key, r[j].key)
    {
      if i == 0 && j > 1 {
        KeyAtMostTransitive(f.key, s[0].key, s[j - 1].key);
      }
    }
  }

  lemma InsertBehindHead(f: Field, s: seq<Field>, t: seq<Field>)
    requires SortedByKey(s) && s != [] && KeyLess(s[0].key, f.key)
    requires SortedByKey(t) && multiset(t) == multiset(s[1..]) + multiset{f}
    ensures SortedByKey([s[0]] + t)
    ensures ([s[0]] + t)[1..] == t
    ensures s == [s[0]] + s[1..]
  {
    var r := [s[0]] + t;
    assert r[1..] == t;
    assert s == [s[0]] + s[1..];
    forall j | 0 <= j < |t|
      ensures KeyAtMost(s[0].key, t[j].key)
    {
      assert t[j] in multiset(s[1..]) + multiset{f};
      if t[j] != f {
        assert t[j] in s[1..];
        var k :| 0 <= k < |s[1..]| && s[1..][k] == t[j];
        assert s[k + 1] == t[j];
      } else {
        KeyLessAsymmetric(s[0].key, f.key);
      }
    }
    forall i, j | 0 <= i < j < |r|
      ensures KeyAtMost(r[i].key, r[j].key)
    {
      if i > 0 {
        assert r[i] == t[i - 1] && r[j] == t[j - 1];
      } else {
        assert r[j] == t[j - 1];
      }
    }
  }

  /** `sorted(items, key=lambda t: t[0])`: an insertion sort, stable like Python's. */
  function SortByKey(fs: seq<Field>): (r: seq<Field>)
    ensures SortedByKey(r)
    ensures multiset(r) == multiset(fs)
    ensures |r| == |fs|
    ensures LeavesFields(r) == LeavesFields(fs)
    ensures ContainersFields(r) == ContainersFields(fs)
  {
    if fs == [] then []
    else
      assert fs == [fs[0]] + fs[1..];
      Insert(fs[0], SortByKey(fs[1..]))
  }

  lemma SortByKeyMembers(fs: seq<Field>, k: nat)
    requires k < |SortByKey(fs)|
    ensures SortByKey(fs)[k] in fs
  {
    var r := SortByKey(fs);
    assert r[k] in multiset(r);
  }

  /** The first item after sorting has the least key of all. */
  lemma SortedFirstIsLeast(fs: seq<Field>)
    requires fs != []
    ensures forall k | 0 <= k < |fs| :: KeyAtMost(SortByKey(fs)[0].key, fs[k].key)
  {
    var r := SortByKey(fs);
    forall k | 0 <= k < |fs|
      ensures KeyAtMost(r[0].key, fs[k].key)
    {
      assert fs[k] in multiset(r);
      var j :| 0 <= j < |r| && r[j] == fs[k];
      if j == 0 {
        KeyLessIrreflexive(fs[k].key);
      }
    }
  }

  /** Two ascending sequences holding the same items are equal, when items that
      share a key are the same item. */
  lemma {:induction false} SortedUnique(x: seq<Field>, y: seq<Field>)
    requires SortedByKey(x) && SortedByKey(y)
    requires multiset(x) == multiset(y)
    requires KeyDetermines(x)
    ensures x == y
  {
    assert |x| == |multiset(x)| == |multiset(y)| == |y|;
    if x != [] {
      SortedHeadsAgree(x, y);
      TailsAgree(x, y);
      SortedUnique(x[1..], y[1..]);
      assert x == [x[0]] + x[1..] && y == [y[0]] + y[1..];
    }
  }

  lemma SortedHeadsAgree(x: seq<Field>, y: seq<Field>)
    requires SortedByKey(x) && SortedByKey(y) && x != [] && y != []
    requires multiset(x) == multiset(y)
    requires KeyDetermines(x)
    ensures x[0] == y[0]
  {
    assert x[0] in multiset(y) && y[0] in multiset(x);
    var i :| 0 <= i < |x| && x[i] == y[0];
    var j :| 0 <= j < |y| && y[j] == x[0];
    KeyLessIrreflexive(x[0].key);
    assert KeyAtMost(x[0].key, x[i].key);
    assert KeyAtMost(y[0].key, y[j].key);
    KeyLessTotal(x[0].key, y[0].key);
  }

  lemma TailsAgree(x: seq<Field>, y: seq<Field>)
    requires x != [] && y != [] && x[0] == y[0]
    requires SortedByKey(x) && SortedByKey(y)
    requires multiset(x) == multiset(y)
    requires KeyDetermines(x)
    ensures multiset(x[1..]) == multiset(y[1..])
    ensures SortedByKey(x[1..]) && SortedByKey(y[1..])
    ensures KeyDetermines(x[1..])
  {
    assert x == [x[0]] + x[1..] && y == [y[0]] + y[1..];
    assert multiset(x[1..]) == multiset(x) - multiset{x[0]};
    assert multiset(y[1..]) == multiset(y) - multiset{y[0]};
    forall a, b | 0 <= a < |x[1..]| && 0 <= b < |x[1..]| && x[1..][a].key == x[1..][b].key
      ensures x[1..][a] == x[1..][b]
    {
      assert x[1..][a] == x[a + 1] && x[1..][b] == x[b + 1];
    }
    forall a, b | 0 <= a < b < |x[1..]|
      ensures KeyAtMost(x[1..][a].key, x[1..][b].key)
    {
      assert x[1..][a] == x[a + 1] && x[1..][b] == x[b + 1];
    }
    forall a, b | 0 <= a < b < |y[1..]|
      ensures KeyAtMost(y[1..][a].key, y[1..][b].key)
    {
      assert y[1..][a] == y[a + 1] && y[1..][b] == y[b + 1];
    }
  }

  /** Sorting the items of a dict gives one result whatever their order: the
      printed form of a dict does not depend on its insertion order. */
  lemma SortIgnoresInsertionOrder(a: seq<Field>, b: seq<Field>)
    requires DistinctKeys(a)
    requires multiset(a) == multiset(b)
    ensures SortByKey(a) == SortByKey(b)
  {
    var x, y := SortByKey(a), SortByKey(b);
    forall i, j | 0 <= i < |x| && 0 <= j < |x| && x[i].key == x[j].key
      ensures x[i] == x[j]
    {
      SortByKeyMembers(a, i);
      SortByKeyMembers(a, j);
      var p :| 0 <= p < |a| && a[p] == x[i];
      var q :| 0 <= q < |a| && a[q] == x[j];
      assert p == q;
    }
    SortedUnique(x, y);
  }
}
