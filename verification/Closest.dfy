/** Contacts, and the lists of contacts nearest to a target (pkg/dht/routing.go, pkg/dht/dht.go). */
module Closest {
  import opened Bytes
  import opened NodeId

  datatype Contact = Contact(id: Id, addr: Buf)

  predicate DistinctIds(cs: seq<Contact>) {
    forall i, j | 0 <= i < j < |cs| :: cs[i].id != cs[j].id
  }

  /** Strictly ascending by distance; in particular no identifier occurs twice. */
  predicate Ascending(cs: seq<Contact>, target: Id) {
    forall i, j | 0 <= i < j < |cs| :: Nearer(cs[i].id, cs[j].id, target)
  }

  function Min(a: nat, b: nat): nat { if a < b then a else b }

  /** `r` lists the `count` contacts of `all` nearest to the target, or all of them, nearest first. */
  ghost predicate IsClosest(r: seq<Contact>, all: seq<Contact>, target: Id, count: nat) {
    && Ascending(r, target)
    && |r| == Min(count, |all|)
    && (forall c :: c in r ==> c in all)
    && (forall c, d :: c in all && c !in r && d in r ==> Nearer(d.id, c.id, target))
  }

  // ----- Sorting

  function Insert(c: Contact, cs: seq<Contact>, target: Id): (r: seq<Contact>)
    ensures |r| == |cs| + 1
  {
    if cs == [] then [c]
    else if Nearer(c.id, cs[0].id, target) then [c] + cs
    else [cs[0]] + Insert(c, cs[1..], target)
  }

  /** Any sort would do: see `AscendingIsUnique`. */
  function SortByDistance(cs: seq<Contact>, target: Id): (r: seq<Contact>)
    ensures |r| == |cs|
  {
    if cs == [] then [] else Insert(cs[0], SortByDistance(cs[1..], target), target)
  }

  lemma ConsMultiset(c: Contact, cs: seq<Contact>)
    ensures multiset([c] + cs) == multiset{c} + multiset(cs)
  {
  }

  lemma HeadMultiset(cs: seq<Contact>)
    requires cs != []
    ensures multiset(cs) == multiset{cs[0]} + multiset(cs[1..])
  {
    assert cs == [cs[0]] + cs[1..];
  }

  lemma {:induction false} InsertMultiset(c: Contact, cs: seq<Contact>, target: Id)
    ensures multiset(Insert(c, cs, target)) == multiset{c} + multiset(cs)
  {
    hide Nearer;
    if cs == [] {
      ConsMultiset(c, cs);
    } else if Nearer(c.id, cs[0].id, target) {
      ConsMultiset(c, cs);
    } else {
      var rest := Insert(c, cs[1..], target);
      InsertMultiset(c, cs[1..], target);
      assert Insert(c, cs, target) == [cs[0]] + rest;
      hide Insert;
      ConsMultiset(cs[0], rest);
      HeadMultiset(cs);
    }
  }

  lemma {:induction false} SortMultiset(cs: seq<Contact>, target: Id)
    ensures multiset(SortByDistance(cs, target)) == multiset(cs)
  {
    hide Insert;
    if cs == [] {
    } else {
      SortMultiset(cs[1..], target);
      InsertMultiset(cs[0], SortByDistance(cs[1..], target), target);
      HeadMultiset(cs);
    }
  }

  lemma SameMembers(a: seq<Contact>, b: seq<Contact>)
    requires multiset(a) == multiset(b)
    ensures forall c :: c in a <==> c in b
  {
    forall c
      ensures c in a <==> c in b
    {
      assert c in a <==> c in multiset(a);
      assert c in b <==> c in multiset(b);
    }
  }

  lemma {:induction false} InsertAscending(c: Contact, cs: seq<Contact>, target: Id)
    requires Ascending(cs, target)
    requires forall i | 0 <= i < |cs| :: cs[i].id != c.id
    ensures Ascending(Insert(c, cs, target), target)
  {
    if cs == [] {
    } else if Nearer(c.id, cs[0].id, target) {
      forall i | 0 <= i < |cs|
        ensures Nearer(c.id, cs[i].id, target)
      {
        if i > 0 {
          NearerTransitive(c.id, cs[0].id, cs[i].id, target);
        }
      }
    } else {
      NearerTotal(c.id, cs[0].id, target);
      var rest := Insert(c, cs[1..], target);
      InsertAscending(c, cs[1..], target);
      InsertMultiset(c, cs[1..], target);
      forall i | 0 <= i < |rest|
        ensures Nearer(cs[0].id, rest[i].id, target)
      {
        assert rest[i] in multiset(rest);
        if rest[i] != c {
          assert rest[i] in cs[1..];
        }
      }
    }
  }

  lemma {:induction false} SortAscending(cs: seq<Contact>, target: Id)
    requires DistinctIds(cs)
    ensures Ascending(SortByDistance(cs, target), target)
  {
    if cs != [] {
      var rest := SortByDistance(cs[1..], target);
      SortAscending(cs[1..], target);
      SortMultiset(cs[1..], target);
      SameMembers(rest, cs[1..]);
      forall i | 0 <= i < |rest|
        ensures rest[i].id != cs[0].id
      {
        assert rest[i] in cs[1..];
      }
      InsertAscending(cs[0], rest, target);
    }
  }

  lemma AscendingIsDistinct(cs: seq<Contact>, target: Id)
    requires Ascending(cs, target)
    ensures DistinctIds(cs)
  {
    forall i, j | 0 <= i < j < |cs|
      ensures cs[i].id != cs[j].id
    {
      NearerTotal(cs[i].id, cs[j].id, target);
    }
  }

  lemma MemberOfTail(cs: seq<Contact>, c: Contact)
    requires cs != [] && c in cs && c != cs[0]
    ensures c in cs[1..]
  {
  }

  lemma NonEmptyHasMember(cs: seq<Contact>)
    ensures cs != [] ==> exists c :: c in cs
  {
    if cs != [] {
      assert cs[0] in cs;
    }
  }

  /** There is only one ascending arrangement, so the choice of sorting algorithm does not matter. */
  lemma {:induction false} AscendingIsUnique(a: seq<Contact>, b: seq<Contact>, target: Id)
    requires Ascending(a, target) && Ascending(b, target)
    requires forall c :: c in a <==> c in b
    ensures a == b
  {
    if a == [] {
      NonEmptyHasMember(b);
    } else {
      assert a[0] in b;
      if a[0] != b[0] {
        MemberOfTail(b, a[0]);
        assert b[0] in a;
        MemberOfTail(a, b[0]);
        var i :| 0 <= i < |b[1..]| && b[1..][i] == a[0];
        var j :| 0 <= j < |a[1..]| && a[1..][j] == b[0];
        assert Nearer(b[0].id, b[i + 1].id, target) && Nearer(a[0].id, a[j + 1].id, target);
        NearerTotal(a[0].id, b[0].id, target);
        assert false;
      }
      forall c
        ensures c in a[1..] <==> c in b[1..]
      {
        TailMembers(a, b, target, c);
        TailMembers(b, a, target, c);
      }
      AscendingIsUnique(a[1..], b[1..], target);
      assert a == [a[0]] + a[1..] && b == [b[0]] + b[1..];
    }
  }

  lemma TailMembers(a: seq<Contact>, b: seq<Contact>, target: Id, c: Contact)
    requires Ascending(a, target) && a != [] && b != [] && a[0] == b[0]
    requires forall x :: x in a <==> x in b
    ensures c in a[1..] ==> c in b[1..]
  {
    if c in a[1..] {
      AscendingIsDistinct(a, target);
      var i :| 0 <= i < |a[1..]| && a[1..][i] == c;
      assert a[i + 1] == c && a[0].id != c.id;
      assert c in b;
      MemberOfTail(b, c);
    }
  }

  /** Sorting and cutting gives the closest contacts. */
  lemma SortAndCutIsClosest(all: seq<Contact>, target: Id, count: nat)
    requires DistinctIds(all)
    ensures IsClosest(SortByDistance(all, target)[..Min(count, |all|)], all, target, count)
  {
    hide SortByDistance, Nearer;
    var s := SortByDistance(all, target);
    var r := s[..Min(count, |all|)];
    SortAscending(all, target);
    SortMultiset(all, target);
    SameMembers(s, all);
    forall c, d | c in all && c !in r && d in r
      ensures Nearer(d.id, c.id, target)
    {
      var i :| 0 <= i < |s| && s[i] == c;
      var j :| 0 <= j < |r| && r[j] == d;
      assert s[j] == d;
    }
  }

  /** Sort a copy and keep the first `count`. */
  method Nearest(all: seq<Contact>, target: Id, count: nat) returns (results: seq<Contact>)
    requires DistinctIds(all)
    ensures IsClosest(results, all, target, count)
  {
    SortAndCutIsClosest(all, target, count);
    results := SortByDistance(all, target);
    if |results| > count {
      results := results[..count];
    } else {
      assert results[..|all|] == results;
    }
  }

  function Members(cs: seq<Contact>): (s: set<Contact>)
    ensures forall c :: c in s <==> c in cs
  {
    set c | c in cs
  }

  lemma {:induction false} DistinctCardinality(cs: seq<Contact>)
    requires DistinctIds(cs)
    ensures |Members(cs)| == |cs|
  {
    if cs != [] {
      DistinctCardinality(cs[1..]);
      assert Members(cs) == {cs[0]} + Members(cs[1..]);
      assert cs[0] !in cs[1..];
    }
  }

  /** The answer to a closest query is unique. */
  lemma ClosestIsUnique(r: seq<Contact>, q: seq<Contact>, all: seq<Contact>, target: Id, count: nat)
    requires IsClosest(r, all, target, count) && IsClosest(q, all, target, count)
    ensures r == q
  {
    AscendingIsDistinct(r, target);
    AscendingIsDistinct(q, target);
    DistinctCardinality(r);
    DistinctCardinality(q);
    var R, Q := Members(r), Members(q);
    if R != Q {
      assert R - Q != {} && Q - R != {} by { DifferBothWays(R, Q); }
      var c :| c in R - Q;
      var d :| d in Q - R;
      assert Nearer(d.id, c.id, target) && Nearer(c.id, d.id, target);
      NearerTotal(c.id, d.id, target);
      assert false;
    }
    assert forall c :: c in r <==> c in R;
    assert forall c :: c in q <==> c in Q;
    AscendingIsUnique(r, q, target);
  }

  lemma DifferBothWays(R: set<Contact>, Q: set<Contact>)
    requires |R| == |Q| && R != Q
    ensures R - Q != {} && Q - R != {}
  {
    assert R == (R - Q) + (R * Q) && Q == (Q - R) + (R * Q);
    assert |R - Q| == |Q - R|;
    assert R - Q == {} <==> Q - R == {};
  }
}
