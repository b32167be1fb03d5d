/** The canonical order of a validator set and the sort that establishes it. */
module ValidatorOrder {
  import opened Bytes

  datatype Validator = Validator(address: bytes, power: uint64)

  /** bytes.Compare(a, b) < 0 */
  predicate LexLess(a: bytes, b: bytes) {
    b != [] && (a == [] || a[0] < b[0] || (a[0] == b[0] && LexLess(a[1..], b[1..])))
  }

  /** Power descending, ties by ascending address. */
  predicate Before(v: Validator, w: Validator) {
    if v.power == w.power then LexLess(v.address, w.address) else v.power > w.power
  }

  lemma {:induction false} LexTotal(a: bytes, b: bytes)
    ensures a == b || LexLess(a, b) || LexLess(b, a)
    ensures !(LexLess(a, b) && LexLess(b, a)) && (a == b ==> !LexLess(a, b))
  {
    if a != [] && b != [] {
      LexTotal(a[1..], b[1..]);
      assert a == [a[0]] + a[1..] && b == [b[0]] + b[1..];
    }
  }

  lemma {:induction false} LexTransitive(a: bytes, b: bytes, c: bytes)
    requires LexLess(a, b) && LexLess(b, c)
    ensures LexLess(a, c)
  {
    if a != [] && a[0] == b[0] == c[0] {
      LexTransitive(a[1..], b[1..], c[1..]);
    }
  }

  /** The first byte that differs decides; a proper prefix comes first. */
  lemma {:induction false} LexDecides(p: bytes, x: byte, y: byte, a: bytes, b: bytes)
    ensures x != y ==> (LexLess(p + [x] + a, p + [y] + b) <==> x < y)
    ensures LexLess(p, p + b) <==> b != []
  {
    if p == [] {
      assert p + [x] + a == [x] + a && p + [y] + b == [y] + b && p + b == b;
    } else {
      LexDecides(p[1..], x, y, a, b);
      assert (p + [x] + a)[1..] == p[1..] + [x] + a && (p + [y] + b)[1..] == p[1..] + [y] + b;
      assert (p + b)[1..] == p[1..] + b;
    }
  }

  /** The order is total and strict on all validators, whatever their address lengths. */
  lemma BeforeTotal(v: Validator, w: Validator)
    ensures v == w || Before(v, w) || Before(w, v)
    ensures !(Before(v, w) && Before(w, v)) && (v == w ==> !Before(v, w))
  {
    LexTotal(v.address, w.address);
  }

  lemma BeforeTransitive(u: Validator, v: Validator, w: Validator)
    requires !Before(v, u) && !Before(w, v)
    ensures !Before(w, u)
  {
    BeforeTotal(u, v);
    BeforeTotal(v, w);
    BeforeTotal(u, w);
    if u != v && v != w && u.power == v.power == w.power {
      LexTransitive(u.address, v.address, w.address);
    }
  }

  lemma ValueFront(b: bytes)
    requires b != []
    ensures Value(b) == b[0] * Pow256(|b| - 1) + Value(b[1..])
  {
    ValueSplit([b[0]], b[1..]);
    assert b == [b[0]] + b[1..];
    assert [b[0]][..0] == [] && Value([b[0]]) == b[0];
  }

  lemma HeadDecides(x: nat, y: nat, p: nat, u: nat, v: nat)
    requires x < y && u < p
    ensures x * p + u < y * p + v
  {
    assert (x + 1) * p <= y * p;
  }

  /** On addresses of one length, the byte order is the order of the numbers they denote. */
  lemma {:induction false} LexIsNumeric(a: bytes, b: bytes)
    requires |a| == |b|
    ensures LexLess(a, b) <==> Value(a) < Value(b)
  {
    if a != [] {
      ValueFront(a);
      ValueFront(b);
      BigEndianOfValue(a[1..]);
      BigEndianOfValue(b[1..]);
      LexIsNumeric(a[1..], b[1..]);
      var p := Pow256(|a| - 1);
      if a[0] < b[0] {
        HeadDecides(a[0], b[0], p, Value(a[1..]), Value(b[1..]));
      } else if b[0] < a[0] {
        HeadDecides(b[0], a[0], p, Value(b[1..]), Value(a[1..]));
      }
    }
  }

  predicate Sorted(vs: seq<Validator>) {
    forall i, j :: 0 <= i < j < |vs| ==> !Before(vs[j], vs[i])
  }

  /** Insertion from the back, as the stable sort moves an element. */
  function Insert(vs: seq<Validator>, x: Validator): seq<Validator> {
    if vs == [] || !Before(x, vs[|vs| - 1]) then vs + [x]
    else Insert(vs[..|vs| - 1], x) + [vs[|vs| - 1]]
  }

  function Canonical(vs: seq<Validator>): seq<Validator> {
    if vs == [] then [] else Insert(Canonical(vs[..|vs| - 1]), vs[|vs| - 1])
  }

  lemma LastMultiset(vs: seq<Validator>)
    requires vs != []
    ensures multiset(vs) == multiset(vs[..|vs| - 1]) + multiset{vs[|vs| - 1]}
  {
    assert vs == vs[..|vs| - 1] + [vs[|vs| - 1]];
  }

  lemma {:induction false} InsertAdds(vs: seq<Validator>, x: Validator)
    ensures multiset(Insert(vs, x)) == multiset(vs) + multiset{x}
  {
    if vs != [] && Before(x, vs[|vs| - 1]) {
      InsertAdds(vs[..|vs| - 1], x);
      LastMultiset(vs);
    }
  }

  lemma SortedAppend(vs: seq<Validator>, last: Validator)
    requires Sorted(vs) && forall y :: y in vs ==> !Before(last, y)
    ensures Sorted(vs + [last])
  {
  }

  lemma {:induction false} InsertSorted(vs: seq<Validator>, x: Validator)
    requires Sorted(vs)
    ensures Sorted(Insert(vs, x))
  {
    if vs == [] {
    } else {
      var last, rest := vs[|vs| - 1], vs[..|vs| - 1];
      if Before(x, last) {
        InsertSorted(rest, x);
        InsertAdds(rest, x);
        BeforeTotal(x, last);
        var t := Insert(rest, x);
        forall y | y in t ensures !Before(last, y) {
          assert y in multiset(t);
          assert y in rest || y == x;
        }
        SortedAppend(t, last);
      } else {
        forall y | y in vs ensures !Before(x, y) {
          if y != last {
            BeforeTransitive(y, last, x);
          }
        }
        SortedAppend(vs, x);
      }
    }
  }

  /** The result is ordered and is a permutation of the input. */
  lemma {:induction false} CanonicalSorts(vs: seq<Validator>)
    ensures Sorted(Canonical(vs)) && multiset(Canonical(vs)) == multiset(vs)
  {
    if vs != [] {
      CanonicalSorts(vs[..|vs| - 1]);
      InsertSorted(Canonical(vs[..|vs| - 1]), vs[|vs| - 1]);
      InsertAdds(Canonical(vs[..|vs| - 1]), vs[|vs| - 1]);
      LastMultiset(vs);
    }
  }

  /** The first element of an ordered arrangement is least among its members. */
  lemma HeadLeast(vs: seq<Validator>, x: Validator)
    requires Sorted(vs) && x in multiset(vs)
    ensures vs != [] && !Before(x, vs[0])
  {
    var i :| 0 <= i < |vs| && vs[i] == x;
    BeforeTotal(x, x);
  }

  /** There is only one ordered arrangement of a multiset. */
  lemma {:induction false} SortedUnique(vs: seq<Validator>, ws: seq<Validator>)
    requires Sorted(vs) && Sorted(ws) && multiset(vs) == multiset(ws)
    ensures vs == ws
  {
    assert |multiset(vs)| == |vs| && |multiset(ws)| == |ws|;
    if vs != [] {
      SameHead(vs, ws);
      TailMultiset(vs);
      TailMultiset(ws);
      SortedUnique(vs[1..], ws[1..]);
      assert vs == [vs[0]] + vs[1..] && ws == [ws[0]] + ws[1..];
    }
  }

  lemma SameHead(vs: seq<Validator>, ws: seq<Validator>)
    requires Sorted(vs) && Sorted(ws) && vs != [] && ws != [] && multiset(vs) == multiset(ws)
    ensures vs[0] == ws[0]
  {
    assert vs[0] in multiset(vs) && ws[0] in multiset(ws);
    HeadLeast(vs, ws[0]);
    HeadLeast(ws, vs[0]);
    BeforeTotal(vs[0], ws[0]);
  }

  lemma TailMultiset(vs: seq<Validator>)
    requires vs != []
    ensures multiset(vs[1..]) == multiset(vs) - multiset{vs[0]}
  {
    assert vs == [vs[0]] + vs[1..];
  }

  /** Canonical form is a function of the multiset, and determines it. */
  lemma CanonicalIffPermutation(vs: seq<Validator>, ws: seq<Validator>)
    ensures Canonical(vs) == Canonical(ws) <==> multiset(vs) == multiset(ws)
  {
    CanonicalSorts(vs);
    CanonicalSorts(ws);
    if multiset(vs) == multiset(ws) {
      SortedUnique(Canonical(vs), Canonical(ws));
    }
  }

  /** What the order looks like: powers never rise, and equal powers come in ascending order
      of the address read as a number. */
  lemma CanonicalOrder(vs: seq<Validator>, i: nat, j: nat)
    requires i < j < |Canonical(vs)| && forall v :: v in vs ==> |v.address| == 20
    ensures var v, w := Canonical(vs)[i], Canonical(vs)[j];
            v.power > w.power || (v.power == w.power && Value(v.address) <= Value(w.address))
  {
    CanonicalSorts(vs);
    var v, w := Canonical(vs)[i], Canonical(vs)[j];
    assert v in multiset(Canonical(vs)) && w in multiset(Canonical(vs));
    LexIsNumeric(w.address, v.address);
  }

  /** The list with x moved back to position j. */
  function Moved(vs: seq<Validator>, x: Validator, j: nat): (r: seq<Validator>)
    requires j <= |vs|
    ensures |r| == |vs| + 1
  {
    vs[..j] + [x] + vs[j..]
  }

  /** One swap of neighbours moves x one position further. */
  lemma SwapMoves(vs: seq<Validator>, x: Validator, j: nat)
    requires 0 < j <= |vs|
    ensures Moved(vs, x, j)[j] == x && Moved(vs, x, j)[j - 1] == vs[j - 1]
    ensures Moved(vs, x, j)[j := vs[j - 1]][j - 1 := x] == Moved(vs, x, j - 1)
  {
  }

  /** x belongs at j if it comes before everything from j on and not before its neighbour. */
  lemma {:induction false} InsertIsMoved(vs: seq<Validator>, x: Validator, j: nat)
    requires j <= |vs| && (forall k :: j <= k < |vs| ==> Before(x, vs[k])) && (j > 0 ==> !Before(x, vs[j - 1]))
    ensures Insert(vs, x) == Moved(vs, x, j)
  {
    if j < |vs| {
      var last, rest := vs[|vs| - 1], vs[..|vs| - 1];
      InsertIsMoved(rest, x, j);
      assert Moved(rest, x, j) + [last] == Moved(vs, x, j);
    } else {
      assert vs[..j] == vs && vs[j..] == [];
    }
  }

  method Swap(vs: array<Validator>, j: nat, i: nat)
    requires 0 < j <= i < vs.Length
    modifies vs
    ensures vs[..i + 1] == old(vs[..i + 1])[j := old(vs[j - 1])][j - 1 := old(vs[j])]
    ensures vs[i + 1..] == old(vs[i + 1..])
  {
    vs[j], vs[j - 1] := vs[j - 1], vs[j];
  }

  /** Adjacent swaps move element i back to its position among those before it. */
  method MoveBack(vs: array<Validator>, i: nat)
    requires i < vs.Length
    modifies vs
    ensures vs[..i + 1] == Insert(old(vs[..i]), old(vs[i]))
    ensures vs[i + 1..] == old(vs[i + 1..])
  {
    var j := i;
    ghost var done, x := vs[..i], vs[i];
    assert vs[..i + 1] == Moved(done, x, i);
    while j > 0 && Before(vs[j], vs[j - 1])
      invariant 0 <= j <= i
      invariant vs[..i + 1] == Moved(done, x, j)
      invariant vs[i + 1..] == old(vs[i + 1..])
      invariant forall k :: j <= k < i ==> Before(x, done[k])
    {
      SwapMoves(done, x, j);
      assert vs[j] == vs[..i + 1][j] && vs[j - 1] == vs[..i + 1][j - 1];
      Swap(vs, j, i);
      j := j - 1;
    }
    if j > 0 {
      SwapMoves(done, x, j);
      assert vs[j] == vs[..i + 1][j] && vs[j - 1] == vs[..i + 1][j - 1];
    }
    InsertIsMoved(done, x, j);
  }

  lemma CanonicalStep(vs: seq<Validator>, i: nat)
    requires i < |vs|
    ensures Canonical(vs[..i + 1]) == Insert(Canonical(vs[..i]), vs[i]) && vs[i..][1..] == vs[i + 1..]
  {
    assert vs[..i + 1][..i] == vs[..i];
  }

  /** sortBridgeValidators, in place. */
  method SortBridgeValidators(vs: array<Validator>)
    modifies vs
    ensures vs[..] == Canonical(old(vs[..]))
  {
    ghost var input := vs[..];
    var i := 0;
    while i < vs.Length
      invariant 0 <= i <= vs.Length
      invariant vs[..i] == Canonical(input[..i])
      invariant vs[i..] == input[i..]
    {
      assert vs[i] == vs[i..][0] == input[i];
      assert vs[i + 1..] == vs[i..][1..];
      CanonicalStep(input, i);
      MoveBack(vs, i);
      i := i + 1;
    }
    assert input[..i] == input && vs[..i] == vs[..];
  }
}
