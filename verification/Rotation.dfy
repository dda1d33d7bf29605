/** The process list read as a ring: walking `next` from a process, with NULL wrapping to the head. */
module Rotation {

  ghost predicate Distinct(s: seq<int>) {
    forall i, j :: 0 <= i < j < |s| ==> s[i] != s[j]
  }

  function IndexOf(s: seq<int>, x: int): (i: nat)
    requires x in s
    ensures i < |s| && s[i] == x && x !in s[..i]
  {
    if s[0] == x then 0
    else
      var i := 1 + IndexOf(s[1..], x);
      assert s[..i] == [s[0]] + s[1..][..i - 1];
      i
  }

  lemma IndexUnique(s: seq<int>, i: nat)
    requires Distinct(s) && i < |s|
    ensures IndexOf(s, s[i]) == i
  {
  }

  /** The `next` pointer of x; 0 is NULL. */
  function Next(order: seq<int>, x: int): int
    requires x in order
  {
    var i := IndexOf(order, x);
    if i + 1 < |order| then order[i + 1] else 0
  }

  /** The list seen from cur on, wrapping once; from NULL it starts at the head. */
  function Rot(order: seq<int>, cur: int): seq<int> {
    if cur in order then
      var i := IndexOf(order, cur);
      order[i..] + order[..i]
    else order
  }

  function RemoveOne(order: seq<int>, x: int): seq<int>
    requires x in order
  {
    var i := IndexOf(order, x);
    order[..i] + order[i + 1..]
  }

  function Without(order: seq<int>, dead: set<int>): seq<int> {
    if order == [] then []
    else (if order[0] in dead then [] else [order[0]]) + Without(order[1..], dead)
  }

  lemma {:induction false} WithoutConcat(a: seq<int>, b: seq<int>, dead: set<int>)
    ensures Without(a + b, dead) == Without(a, dead) + Without(b, dead)
  {
    if a == [] {
      assert a + b == b;
    } else {
      assert (a + b)[1..] == a[1..] + b;
      WithoutConcat(a[1..], b, dead);
    }
  }

  lemma {:induction false} WithoutMember(order: seq<int>, dead: set<int>, x: int)
    ensures x in Without(order, dead) <==> x in order && x !in dead
  {
    if order != [] {
      assert order == [order[0]] + order[1..];
      WithoutMember(order[1..], dead, x);
    }
  }

  lemma {:induction false} WithoutDistinct(order: seq<int>, dead: set<int>)
    requires Distinct(order)
    ensures Distinct(Without(order, dead)) && |Without(order, dead)| <= |order|
  {
    if order != [] {
      var t := order[1..];
      WithoutDistinct(t, dead);
      WithoutMember(t, dead, order[0]);
      var w := Without(order, dead);
      assert w == (if order[0] in dead then [] else [order[0]]) + Without(t, dead);
      if order[0] !in dead {
        forall i, j | 0 <= i < j < |w| ensures w[i] != w[j] {
          assert w[j] == Without(t, dead)[j - 1];
        }
      }
    }
  }

  lemma {:induction false} WithoutNone(order: seq<int>)
    ensures Without(order, {}) == order
  {
    if order != [] { WithoutNone(order[1..]); }
  }

  lemma {:induction false} WithoutAbsent(order: seq<int>, dead: set<int>)
    requires forall x :: x in order ==> x !in dead
    ensures Without(order, dead) == order
  {
    if order != [] {
      var x, t := order[0], order[1..];
      assert x in order;
      WithoutAbsent(t, dead);
      assert Without(order, dead) == [x] + t;
    }
  }

  /** Removing one more element. */
  lemma {:induction false} WithoutOneMore(order: seq<int>, dead: set<int>, x: int)
    requires Distinct(order) && x in order && x !in dead
    ensures x in Without(order, dead)
    ensures Without(order, dead + {x}) == RemoveOne(Without(order, dead), x)
  {
    hide Without, IndexOf;
    var i := IndexOf(order, x);
    var a, b := order[..i], order[i + 1..];
    assert order == a + [x] + b;
    WithoutConcat(a + [x], b, dead);
    WithoutConcat(a, [x], dead);
    WithoutConcat(a + [x], b, dead + {x});
    WithoutConcat(a, [x], dead + {x});
    WithoutExtra(a, dead, x);
    WithoutExtra(b, dead, x);
    var wa, wb := Without(a, dead), Without(b, dead);
    WithoutSingle(x, dead);
    WithoutSingle(x, dead + {x});
    assert Without(order, dead) == wa + [x] + wb;
    WithoutDistinct(order, dead);
    assert (wa + [x] + wb)[|wa|] == x;
    IndexUnique(wa + [x] + wb, |wa|);
  }

  lemma WithoutSingle(x: int, dead: set<int>)
    ensures Without([x], dead) == if x in dead then [] else [x]
  {
    assert [x][1..] == [];
  }

  lemma {:induction false} WithoutExtra(a: seq<int>, dead: set<int>, x: int)
    requires x !in a
    ensures Without(a, dead + {x}) == Without(a, dead)
  {
    if a != [] { WithoutExtra(a[1..], dead, x); }
  }

  // ---- walking the ring ------------------------------------------------------

  lemma RotHead(order: seq<int>, x: int)
    requires x in order
    ensures Rot(order, x) != [] && Rot(order, x)[0] == x && |Rot(order, x)| == |order|
  {
  }

  lemma RotMember(order: seq<int>, cur: int, x: int)
    ensures x in Rot(order, cur) <==> x in order
  {
    if cur in order {
      var i := IndexOf(order, cur);
      assert order == order[..i] + order[i..];
    }
  }

  lemma RotDistinct(order: seq<int>, cur: int)
    requires Distinct(order)
    ensures Distinct(Rot(order, cur)) && |Rot(order, cur)| == |order|
  {
  }

  lemma AtIndex(order: seq<int>, i: nat)
    requires Distinct(order) && i < |order|
    ensures Rot(order, order[i]) == order[i..] + order[..i]
    ensures Next(order, order[i]) == if i + 1 < |order| then order[i + 1] else 0
    ensures RemoveOne(order, order[i]) == order[..i] + order[i + 1..]
  {
    IndexUnique(order, i);
  }

  lemma FromNull(order: seq<int>)
    requires 0 !in order
    ensures Rot(order, 0) == order
  {
  }

  /** One step along `next`. */
  lemma RotAdvance(order: seq<int>, x: int)
    requires Distinct(order) && x in order && 0 !in order
    ensures Rot(order, Next(order, x)) == Rot(order, x)[1..] + [x]
  {
    hide IndexOf, Rot, Next, Distinct;
    var i := IndexOf(order, x);
    AtIndex(order, i);
    if i + 1 < |order| {
      AtIndex(order, i + 1);
      assert order[..i + 1] == order[..i] + [x];
      assert order[i..][1..] == order[i + 1..];
    } else {
      FromNull(order);
      assert order == order[..i] + [x];
    }
  }

  /** One step along `next` while x is taken off the list. */
  lemma RotRemove(order: seq<int>, x: int)
    requires Distinct(order) && x in order && 0 !in order
    ensures Rot(RemoveOne(order, x), Next(order, x)) == Rot(order, x)[1..]
  {
    hide IndexOf, Rot, Next, Distinct, RemoveOne;
    var i := IndexOf(order, x);
    var r := RemoveOne(order, x);
    AtIndex(order, i);
    RemoveDistinct(order, x);
    if i + 1 < |order| {
      assert r[i] == order[i + 1];
      AtIndex(r, i);
      assert r[i..] == order[i + 1..] && r[..i] == order[..i];
    } else {
      assert r == order[..i];
      FromNull(r);
    }
  }

  lemma RemoveDistinct(order: seq<int>, x: int)
    requires Distinct(order) && x in order
    ensures Distinct(RemoveOne(order, x)) && x !in RemoveOne(order, x)
    ensures forall y :: y in RemoveOne(order, x) <==> y in order && y != x
  {
    hide IndexOf;
    var i := IndexOf(order, x);
    var r := RemoveOne(order, x);
    forall j | 0 <= j < |r| ensures r[j] == order[if j < i then j else j + 1] {}
    forall y | y in order && y != x ensures y in r {
      var j := IndexOf(order, y);
      assert r[if j < i then j else j - 1] == y;
    }
  }
}
