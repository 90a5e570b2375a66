/** A collection of documents keyed by id, as the document store holds it,
    and the order in which an unsorted query returns them. */
module Collection {
  import opened Seqs

  type Id = nat

  /** A stored document: its id and its fields. */
  datatype Doc<T> = Doc(id: Id, value: T)

  /** The documents of m with ids below n, in ascending id order. Ids are
      handed out in increasing order, so this is insertion order. */
  function InIdOrder<T>(m: map<Id, T>, n: nat): seq<Doc<T>> {
    if n == 0 then []
    else if n - 1 in m then InIdOrder(m, n - 1) + [Doc(n - 1, m[n - 1])]
    else InIdOrder(m, n - 1)
  }

  /** The listing holds each stored document below n exactly once, with its
      stored fields, in strictly increasing id order. */
  lemma {:induction false} InIdOrderSpec<T>(m: map<Id, T>, n: nat)
    ensures forall i :: 0 <= i < |InIdOrder(m, n)| ==>
      InIdOrder(m, n)[i].id < n && InIdOrder(m, n)[i].id in m && m[InIdOrder(m, n)[i].id] == InIdOrder(m, n)[i].value
    ensures forall i, j :: 0 <= i < j < |InIdOrder(m, n)| ==> InIdOrder(m, n)[i].id < InIdOrder(m, n)[j].id
    ensures forall id :: id in m && id < n ==> Doc(id, m[id]) in InIdOrder(m, n)
  {
    if n > 0 {
      InIdOrderSpec(m, n - 1);
      var r := InIdOrder(m, n - 1);
      if n - 1 in m {
        var r' := r + [Doc(n - 1, m[n - 1])];
        assert InIdOrder(m, n) == r';
        forall id | id in m && id < n ensures Doc(id, m[id]) in r' {
          if id < n - 1 {
            var i :| 0 <= i < |r| && r[i] == Doc(id, m[id]);
            assert r'[i] == r[i];
          } else {
            assert r'[|r|] == Doc(id, m[id]);
          }
        }
      }
    }
  }

  /** Only the documents below n matter. */
  lemma {:induction false} InIdOrderFrame<T>(m1: map<Id, T>, m2: map<Id, T>, n: nat)
    requires forall id :: id < n ==> (id in m1 <==> id in m2)
    requires forall id :: id < n && id in m1 ==> m1[id] == m2[id]
    ensures InIdOrder(m1, n) == InIdOrder(m2, n)
  {
    if n > 0 {
      InIdOrderFrame(m1, m2, n - 1);
    }
  }

  /** Storing a document under a fresh id appends it. */
  lemma InIdOrderAdd<T>(m: map<Id, T>, n: nat, v: T)
    requires forall id :: id in m ==> id < n
    ensures InIdOrder(m[n := v], n + 1) == InIdOrder(m, n) + [Doc(n, v)]
  {
    InIdOrderFrame(m, m[n := v], n);
  }

  /** Removing a document drops it from the listing and keeps the rest in
      order. */
  lemma {:induction false} InIdOrderRemove<T(!new)>(m: map<Id, T>, n: nat, x: Id)
    ensures InIdOrder(m - {x}, n) == Filter((d: Doc<T>) => d.id != x, InIdOrder(m, n))
  {
    var p := (d: Doc<T>) => d.id != x;
    if n > 0 {
      InIdOrderRemove(m, n - 1, x);
      var r := InIdOrder(m, n - 1);
      if n - 1 in m {
        var last := Doc(n - 1, m[n - 1]);
        FilterAppend(p, r, [last]);
        assert Filter(p, [last]) == if n - 1 != x then [last] else [];
        if n - 1 != x {
          assert n - 1 in m - {x} && (m - {x})[n - 1] == m[n - 1];
          assert InIdOrder(m - {x}, n) == InIdOrder(m - {x}, n - 1) + [last];
        } else {
          assert n - 1 !in m - {x};
          assert InIdOrder(m - {x}, n) == InIdOrder(m - {x}, n - 1);
        }
      } else {
        assert n - 1 !in m - {x};
        assert InIdOrder(m - {x}, n) == InIdOrder(m - {x}, n - 1);
      }
    }
  }

  /** Replacing a stored document's fields changes that entry only. */
  lemma {:induction false} InIdOrderReplace<T>(m: map<Id, T>, n: nat, x: Id, v: T)
    requires x in m
    ensures |InIdOrder(m[x := v], n)| == |InIdOrder(m, n)|
    ensures forall i :: 0 <= i < |InIdOrder(m, n)| ==>
      InIdOrder(m[x := v], n)[i] == if InIdOrder(m, n)[i].id == x then Doc(x, v) else InIdOrder(m, n)[i]
  {
    if n > 0 {
      InIdOrderReplace(m, n - 1, x, v);
      var r, r' := InIdOrder(m, n - 1), InIdOrder(m[x := v], n - 1);
      if n - 1 in m {
        var d := if n - 1 == x then Doc(x, v) else Doc(n - 1, m[n - 1]);
        assert InIdOrder(m[x := v], n) == r' + [d];
        assert InIdOrder(m, n) == r + [Doc(n - 1, m[n - 1])];
      } else {
        assert n - 1 !in m[x := v];
        assert InIdOrder(m[x := v], n) == r';
        assert InIdOrder(m, n) == r;
      }
    }
  }
}
