/**
  The payload `assemble` computes is the only one its contract admits: which fields are
  sent depends on the layers alone, not on how the drops were carried out.
 */
module PayloadOnce {
  import opened Prelude
  import opened Strings
  import opened Payload

  lemma OutlastsOneWay(a: Field, b: Field, bySize: bool)
    requires Outlasts(a, b, bySize) && Outlasts(b, a, bySize)
    ensures a.key == b.key
  {
    StringLeAntiSymmetric(a.key, b.key);
  }

  lemma SameKey(fields: seq<Field>, f: Field, g: Field)
    requires KeyOrdered(fields) && f in fields && g in fields && f.key == g.key
    ensures f == g
  {
    var i :| 0 <= i < |fields| && fields[i] == f;
    var j :| 0 <= j < |fields| && fields[j] == g;
    assert i <= j && j <= i;
  }

  /** Two ordered lists, the shorter of which has something the longer has not: so has the longer. */
  lemma SomethingElse(a: seq<Field>, b: seq<Field>, f: Field) returns (g: Field)
    requires KeyOrdered(a) && KeyOrdered(b) && |a| <= |b| && f in a && f !in b
    ensures g in b && g !in a
  {
    if forall x :: x in b ==> x in a {
      var v :| 0 <= v < |a| && a[v] == f;
      RemoveElements(a, v);
      Within(b, Removed(a, v));
    }
    g :| g in b && g !in a;
  }

  /** What follows the head of an ordered list lies behind the head wherever both are. */
  lemma BehindHead(a: seq<Field>, b: seq<Field>, v: nat, f: Field)
    requires KeyOrdered(a) && KeyOrdered(b) && a != [] && v < |b| && b[v] == a[0]
    requires f in a[1..] && f in b
    ensures f in b[v + 1..]
  {
    var i :| 0 < i < |a| && a[i] == f;
    var j :| 0 <= j < |b| && b[j] == f;
    assert StringLt(a[0].key, f.key);
    if j < v {
      assert StringLt(f.key, a[0].key);
      StringLeAntiSymmetric(a[0].key, f.key);
    }
    assert b[v + 1..][j - v - 1] == f;
  }

  lemma TailOrdered(fields: seq<Field>, n: nat)
    requires KeyOrdered(fields) && n <= |fields|
    ensures KeyOrdered(fields[n..])
  {
  }

  lemma {:induction false} TailEntries(fields: seq<Field>, v: nat)
    requires v < |fields|
    ensures EntrySize(fields[v]) + Entries(fields[v + 1..]) <= Entries(fields)
    decreases v
  {
    if v > 0 {
      var rest := fields[1..];
      TailEntries(rest, v - 1);
      assert rest[v..] == fields[v + 1..] && rest[v - 1] == fields[v];
    }
  }

  /** A part of an ordered list is no longer and no larger. */
  lemma {:induction false} Within(a: seq<Field>, b: seq<Field>)
    requires KeyOrdered(a) && KeyOrdered(b) && forall f :: f in a ==> f in b
    ensures |a| <= |b| && Entries(a) <= Entries(b)
    ensures |a| == |b| ==> a == b
    decreases |b|
  {
    if a != [] {
      assert a[0] in a;
      var v :| 0 <= v < |b| && b[v] == a[0];
      var rest, others := a[1..], b[v + 1..];
      forall f | f in rest ensures f in others {
        assert f in a;
        BehindHead(a, b, v, f);
      }
      TailOrdered(a, 1);
      TailOrdered(b, v + 1);
      Within(rest, others);
      TailEntries(b, v);
      assert a == [a[0]] + rest;
      assert |a| == |b| ==> b == [b[0]] + others;
    }
  }

  /** Of two cuts of one list the shorter lies within the longer. */
  lemma CutsNest(all: seq<Field>, a: seq<Field>, b: seq<Field>, bySize: bool)
    requires KeyOrdered(all) && Cut(all, a, bySize) && Cut(all, b, bySize) && |a| <= |b|
    ensures forall f :: f in a ==> f in b
  {
    forall f | f in a ensures f in b {
      if f !in b {
        var g := SomethingElse(a, b, f);
        OutlastsOneWay(f, g, bySize);
        SameKey(all, f, g);
      }
    }
  }

  lemma BackInTheLonger(some: seq<Field>, a: seq<Field>, b: seq<Field>, f: Field)
    requires KeyOrdered(some) && Cut(some, b, true) && WentLast(some, a, f)
    requires |a| < |b| && KeyOrdered(a)
    ensures f in b
  {
    if f !in b {
      if forall x :: x in b ==> x in a {
        Within(b, a);
      }
      var g :| g in b && g !in a;
      OutlastsOneWay(f, g, true);
      SameKey(some, f, g);
    }
  }

  lemma KeyCapOnce(l: Layers, a: seq<Field>, b: seq<Field>)
    requires KeyCapped(l, a) && KeyCapped(l, b)
    ensures a == b
  {
    forall f | f in a ensures f in b {
      if f !in b {
        var g := SomethingElse(a, b, f);
        OutlastsOneWay(f, g, false);
      }
    }
    Within(a, b);
  }

  /** A shorter result would have dropped a field that fits. */
  lemma NoShorterResult(some: seq<Field>, a: seq<Field>, b: seq<Field>)
    requires KeyOrdered(some) && ByteCapped(some, a) && ByteCapped(some, b) && |a| <= |b|
    ensures a == b
  {
    CutsNest(some, a, b, true);
    Within(a, b);
    if |a| < |b| {
      if a == some {
        Within(b, some);
      } else {
        var f :| WentLast(some, a, f);
        BackInTheLonger(some, a, b, f);
        var v :| 0 <= v < |b| && b[v] == f;
        RemoveElements(b, v);
        Within(a, Removed(b, v));
        RemovedSize(b, v);
      }
    }
  }

  /** For all layers there is one payload within the caps. */
  lemma OnePayload(l: Layers, some: seq<Field>, values: seq<Field>, some': seq<Field>, values': seq<Field>)
    requires KeyCapped(l, some) && ByteCapped(some, values)
    requires KeyCapped(l, some') && ByteCapped(some', values')
    ensures values == values'
  {
    KeyCapOnce(l, some, some');
    if |values| <= |values'| {
      NoShorterResult(some, values, values');
    } else {
      NoShorterResult(some, values', values);
    }
  }
}
