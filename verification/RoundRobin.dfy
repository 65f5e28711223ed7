/**
  What the roving pxIndex of a list gives its users: round-robin order over any history of
  vListInsertEnd, uxListRemove and listGET_OWNER_OF_NEXT_ENTRY.
 */
module RoundRobin {
  import opened RingList

  ghost predicate Ok<T>(c: Cursor<T>) {
    c.at <= |c.items| && Distinct(c.items)
  }

  // The order in which the following advances meet the items; the item pxIndex stands on is last.
  function Rotation<T>(c: Cursor<T>): (r: seq<T>)
    requires c.at <= |c.items|
    ensures |r| == |c.items|
  {
    c.items[c.at..] + c.items[..c.at]
  }

  // ---------------------------------------------------------------- single operations

  lemma {:induction false} FirstToLast<T>(x: T, a: seq<T>, b: seq<T>)
    ensures (([x] + a) + b)[1..] + [(([x] + a) + b)[0]] == a + (b + [x])
  {
  }

  lemma {:induction false} AdvanceRotates<T>(c: Cursor<T>)
    requires c.at <= |c.items| && c.items != []
    ensures Rotation(Advanced(c)) == Rotation(c)[1..] + [Rotation(c)[0]]
    ensures Advanced(c).items[Advanced(c).at - 1] == Rotation(c)[0]
  {
    if c.at < |c.items| {
      assert c.items[c.at..] == [c.items[c.at]] + c.items[c.at + 1..];
      assert c.items[..c.at + 1] == c.items[..c.at] + [c.items[c.at]];
      FirstToLast(c.items[c.at], c.items[c.at + 1..], c.items[..c.at]);
    } else {
      assert Rotation(c) == c.items;
      assert c.items[..1] == [c.items[0]];
    }
  }

  // A new item is met after every older one, except the one pxIndex stands on.
  lemma {:induction false} InsertEndRotation<T>(c: Cursor<T>, x: T)
    requires Ok(c)
    ensures InsertedEnd(c, x).at <= |InsertedEnd(c, x).items|
    ensures Rotation(InsertedEnd(c, x)) ==
            InsertAt(Rotation(c), if c.at == 0 then |c.items| else |c.items| - 1, x)
  {
    if c.at > 0 {
      var d := InsertedEnd(c, x);
      assert d.items[d.at..] == c.items[c.at..];
      assert d.items[..d.at] == c.items[..c.at - 1] + [x] + [c.items[c.at - 1]];
      assert Rotation(c)[..|c.items| - 1] == c.items[c.at..] + c.items[..c.at - 1];
      assert Rotation(c)[|c.items| - 1..] == [c.items[c.at - 1]];
    } else {
      assert Rotation(c) == c.items;
    }
  }

  // Where entry k of the list stands in the rotation.
  function Turn<T>(c: Cursor<T>, k: nat): (p: nat)
    requires c.at <= |c.items| && k < |c.items|
    ensures p < |c.items| && Rotation(c)[p] == c.items[k]
  {
    if k < c.at then k + |c.items| - c.at else k - c.at
  }

  // Removing an item, even the one pxIndex stands on, leaves the order of the others alone.
  lemma {:induction false} RemoveRotation<T>(c: Cursor<T>, k: nat)
    requires Ok(c) && k < |c.items|
    ensures Removed(c, k).at <= |Removed(c, k).items|
    ensures Rotation(Removed(c, k)) == RemoveAt(Rotation(c), Turn(c, k))
  {
    var p, q := c.items[..c.at], c.items[c.at..];
    assert c.items == p + q;
    if k < c.at {
      RemoveInFront(p, q, k);
      RemoveBehind(q, p, k);
      Halves(RemoveAt(p, k), q);
    } else {
      RemoveBehind(p, q, k - c.at);
      RemoveInFront(q, p, k - c.at);
      Halves(p, RemoveAt(q, k - c.at));
    }
  }

  lemma {:induction false} Halves<T>(a: seq<T>, b: seq<T>)
    ensures Rotation(Cursor(a + b, |a|)) == b + a
  {
  }

  // ---------------------------------------------------------------- histories

  datatype Op<T> = Append(x: T) | Delete(k: nat) | Step

  predicate Allowed<T(==)>(c: Cursor<T>, op: Op<T>) {
    match op
    case Append(x) => x !in c.items
    case Delete(k) => k < |c.items|
    case Step => c.items != []
  }

  function Apply<T>(c: Cursor<T>, op: Op<T>): Cursor<T>
    requires c.at <= |c.items| && Allowed(c, op)
  {
    match op
    case Append(x) => InsertedEnd(c, x)
    case Delete(k) => Removed(c, k)
    case Step => Advanced(c)
  }

  ghost predicate Legal<T>(c: Cursor<T>, ops: seq<Op<T>>)
    decreases |ops|
  {
    ops == [] || (c.at <= |c.items| && Allowed(c, ops[0]) && Legal(Apply(c, ops[0]), ops[1..]))
  }

  // The items the advances of a history return, in order.
  ghost function Visits<T>(c: Cursor<T>, ops: seq<Op<T>>): seq<T>
    requires Legal(c, ops)
    decreases |ops|
  {
    if ops == [] then []
    else (if ops[0].Step? then [Advanced(c).items[Advanced(c).at - 1]] else []) + Visits(Apply(c, ops[0]), ops[1..])
  }

  function Only<T(==)>(s: seq<T>, x: T, y: T): seq<T> {
    if s == [] then [] else (if s[0] == x || s[0] == y then [s[0]] else []) + Only(s[1..], x, y)
  }

  // x, y, x, y, ... starting with x
  predicate Alternates<T(==)>(s: seq<T>, x: T, y: T) {
    s == [] || (s[0] == x && Alternates(s[1..], y, x))
  }

  ghost predicate Before<T>(s: seq<T>, x: T, y: T) {
    exists i, j :: 0 <= i < j < |s| && s[i] == x && s[j] == y
  }

  ghost predicate Untouched<T>(c: Cursor<T>, ops: seq<Op<T>>, x: T)
    requires Legal(c, ops)
    decreases |ops|
  {
    ops == [] || ((ops[0].Delete? ==> c.items[ops[0].k] != x) && Untouched(Apply(c, ops[0]), ops[1..], x))
  }

  lemma {:induction false} InsertKeepsOrder<T>(s: seq<T>, k: nat, z: T, x: T, y: T)
    requires k <= |s| && Before(s, x, y)
    ensures Before(InsertAt(s, k, z), x, y)
  {
    var i, j :| 0 <= i < j < |s| && s[i] == x && s[j] == y;
    var i', j' := if i < k then i else i + 1, if j < k then j else j + 1;
    assert InsertAt(s, k, z)[i'] == x && InsertAt(s, k, z)[j'] == y;
  }

  lemma {:induction false} RemoveKeepsOrder<T>(s: seq<T>, k: nat, x: T, y: T)
    requires k < |s| && Before(s, x, y) && s[k] != x && s[k] != y
    ensures Before(RemoveAt(s, k), x, y)
  {
    var i, j :| 0 <= i < j < |s| && s[i] == x && s[j] == y;
    var i', j' := if i < k then i else i - 1, if j < k then j else j - 1;
    assert RemoveAt(s, k)[i'] == x && RemoveAt(s, k)[j'] == y;
  }

  lemma {:induction false} RotateOrder<T>(s: seq<T>, x: T, y: T)
    requires Distinct(s) && Before(s, x, y)
    ensures s[0] == x ==> Before(s[1..] + [s[0]], y, x)
    ensures s[0] != x ==> s[0] != y && Before(s[1..] + [s[0]], x, y)
  {
    var i, j :| 0 <= i < j < |s| && s[i] == x && s[j] == y;
    var r := s[1..] + [s[0]];
    Apart(s, 0);
    assert r[j - 1] == y;
    if s[0] == x {
      assert i == 0;
      assert r[|s| - 1] == x;
    } else {
      assert r[i - 1] == x;
    }
  }

  lemma {:induction false} ApplyKeepsOk<T>(c: Cursor<T>, op: Op<T>)
    requires Ok(c) && Allowed(c, op)
    ensures Ok(Apply(c, op))
  {
    match op
    case Append(x) =>
      InsertDistinct(c.items, if c.at == 0 then |c.items| else c.at - 1, x);
      assert c.items + [x] == InsertAt(c.items, |c.items|, x);
    case Delete(k) => RemoveDistinct(c.items, k);
    case Step =>
  }

  // Over any history of insertions, removals and advances, two items that stay on the list are
  // visited strictly in turn: neither is skipped, neither comes twice before the other.
  lemma {:induction false} VisitsTakeTurns<T>(c: Cursor<T>, ops: seq<Op<T>>, x: T, y: T)
    requires Ok(c) && Legal(c, ops)
    requires Before(Rotation(c), x, y)
    requires Untouched(c, ops, x) && Untouched(c, ops, y)
    ensures Alternates(Only(Visits(c, ops), x, y), x, y)
    decreases |ops|
  {
    if ops != [] {
      var op, d, rest := ops[0], Apply(c, ops[0]), ops[1..];
      ApplyKeepsOk(c, op);
      var v := Visits(d, rest);
      match op
      case Append(z) =>
        InsertEndRotation(c, z);
        InsertKeepsOrder(Rotation(c), if c.at == 0 then |c.items| else |c.items| - 1, z, x, y);
        VisitsTakeTurns(d, rest, x, y);
        assert [] + v == v;
      case Delete(k) =>
        RemoveRotation(c, k);
        RemoveKeepsOrder(Rotation(c), Turn(c, k), x, y);
        VisitsTakeTurns(d, rest, x, y);
        assert [] + v == v;
      case Step =>
        AdvanceRotates(c);
        RotationDistinct(c);
        RotateOrder(Rotation(c), x, y);
        assert ([Rotation(c)[0]] + v)[1..] == v;
        if Rotation(c)[0] == x {
          VisitsTakeTurns(d, rest, y, x);
          OnlySwap(v, x, y);
          assert ([x] + Only(v, x, y))[1..] == Only(v, x, y);
        } else {
          VisitsTakeTurns(d, rest, x, y);
          assert [] + Only(v, x, y) == Only(v, x, y);
        }
    }
  }

  lemma {:induction false} OnlySwap<T>(s: seq<T>, x: T, y: T)
    ensures Only(s, x, y) == Only(s, y, x)
  {
    if s != [] {
      OnlySwap(s[1..], x, y);
    }
  }

  lemma {:induction false} RotationDistinct<T>(c: Cursor<T>)
    requires Ok(c)
    ensures Distinct(Rotation(c))
  {
    var n := |c.items|;
    forall i | 0 <= i < n
      ensures Entry(Rotation(c), i) == Entry(c.items, if i < n - c.at then i + c.at else i - (n - c.at))
    {
    }
  }

  // With nothing inserted or removed, |items| advances return every item exactly once.
  lemma {:induction false} FullRotation<T>(c: Cursor<T>, n: nat)
    requires Ok(c) && n <= |c.items|
    ensures Legal(c, seq(n, i => Step)) && Visits(c, seq(n, i => Step)) == Rotation(c)[..n]
    decreases n
  {
    if n > 0 {
      AdvanceRotates(c);
      FullRotation(Advanced(c), n - 1);
      assert seq<Op<T>>(n, i => Step)[1..] == seq<Op<T>>(n - 1, i => Step);
      assert Rotation(Advanced(c))[..n - 1] == Rotation(c)[1..n];
      assert Rotation(c)[..n] == [Rotation(c)[0]] + Rotation(c)[1..n];
    }
  }
}
