/** Queues of distinct elements, the shape of the driver's two linked lists. */
module Lists {

  ghost predicate NoDup<T(!new)>(q: seq<T>) {
    forall i, j | 0 <= i < j < |q| :: q[i] != q[j]
  }

  /** `q` without the elements of `gone`, order kept: what unlinking those elements leaves behind. */
  function Minus<T(==,!new)>(q: seq<T>, gone: set<T>): (r: seq<T>)
    ensures forall x :: x in r <==> x in q && x !in gone
    ensures |r| <= |q|
  {
    if q == [] then []
    else
      var rest := Minus(q[1..], gone);
      assert forall x :: x in q <==> x == q[0] || x in q[1..];
      if q[0] in gone then rest
      else
        assert forall x :: x in [q[0]] + rest <==> x == q[0] || x in rest;
        [q[0]] + rest
  }

  lemma {:induction false} MinusNoDup<T(!new)>(q: seq<T>, gone: set<T>)
    requires NoDup(q)
    ensures NoDup(Minus(q, gone))
  {
    if q != [] {
      MinusNoDup(q[1..], gone);
      assert forall i | 0 <= i < |q[1..]| :: q[1..][i] == q[i + 1] != q[0];
      assert q[0] !in q[1..];
    }
  }

  lemma MinusCons<T(!new)>(x: T, rest: seq<T>, gone: set<T>)
    ensures Minus([x] + rest, gone) == (if x in gone then [] else [x]) + Minus(rest, gone)
  {
    assert ([x] + rest)[1..] == rest;
  }

  lemma {:induction false} MinusConcat<T(!new)>(a: seq<T>, b: seq<T>, gone: set<T>)
    ensures Minus(a + b, gone) == Minus(a, gone) + Minus(b, gone)
  {
    if a == [] {
      assert a + b == b;
    } else {
      var x, rest := a[0], a[1..];
      var kept := if x in gone then [] else [x];
      calc {
        Minus(a + b, gone);
        { assert a + b == [x] + (rest + b); MinusCons(x, rest + b, gone); }
        kept + Minus(rest + b, gone);
        { MinusConcat(rest, b, gone); }
        kept + (Minus(rest, gone) + Minus(b, gone));
        (kept + Minus(rest, gone)) + Minus(b, gone);
        { assert a == [x] + rest; MinusCons(x, rest, gone); }
        Minus(a, gone) + Minus(b, gone);
      }
    }
  }

  lemma {:induction false} MinusMinus<T(!new)>(q: seq<T>, gone: set<T>, more: set<T>)
    ensures Minus(Minus(q, gone), more) == Minus(q, gone + more)
  {
    if q != [] {
      MinusMinus(q[1..], gone, more);
      if q[0] !in gone {
        var rest := Minus(q[1..], gone);
        assert ([q[0]] + rest)[1..] == rest;
      }
    }
  }

  lemma {:induction false} MinusNothing<T(!new)>(q: seq<T>, gone: set<T>)
    requires forall x | x in q :: x !in gone
    ensures Minus(q, gone) == q
  {
    if q != [] {
      assert q[0] in q;
      MinusNothing(q[1..], gone);
    }
  }

  lemma {:induction false} MinusAll<T(!new)>(q: seq<T>)
    ensures Minus(q, set x | x in q) == []
  {
    var r := Minus(q, set x | x in q);
    assert r != [] ==> r[0] in r;
  }

  /** Appending a new element to a queue of distinct elements keeps it so. */
  lemma NoDupAppend<T(!new)>(q: seq<T>, x: T)
    requires NoDup(q) && x !in q
    ensures NoDup(q + [x])
  {
  }

  lemma {:induction false} NoDupCount<T(!new)>(q: seq<T>, x: T)
    requires NoDup(q)
    ensures multiset(q)[x] == if x in q then 1 else 0
  {
    if q != [] {
      NoDupCount(q[1..], x);
      assert q == [q[0]] + q[1..];
      assert q[0] !in q[1..];
    }
  }
}
