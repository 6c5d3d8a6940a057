/** The k-bucket routing table with least-recently-seen eviction (pkg/dht/routing.go). */
module RoutingTable {
  import opened Bytes
  import opened NodeId
  import opened Closest

  const K: nat := 20

  const BUCKET_COUNT: nat := 256

  // ----- One bucket

  function IndexOf(bucket: seq<Contact>, id: Id): (i: nat)
    ensures i <= |bucket|
    ensures i < |bucket| ==> bucket[i].id == id
    ensures forall j | 0 <= j < i :: bucket[j].id != id
  {
    if bucket == [] then 0
    else if bucket[0].id == id then 0
    else
      assert forall j | 0 < j < |bucket| :: bucket[j] == bucket[1..][j - 1];
      1 + IndexOf(bucket[1..], id)
  }

  /** A bucket after its owner has seen `c`: moved to the end, or added there with the oldest evicted. */
  function See(bucket: seq<Contact>, c: Contact): seq<Contact> {
    var i := IndexOf(bucket, c.id);
    if i < |bucket| then
      var known := if c.addr != [] then c else bucket[i];
      bucket[..i] + bucket[i + 1..] + [known]
    else (if |bucket| >= K then bucket[1..] else bucket) + [c]
  }

  /** The contact belongs in bucket `i` of the table of `local`. */
  predicate Belongs(local: Id, i: nat, id: Id) { id != local && Prefix(local, id) == i }

  /** Bucket `i` after the contacts of `h` have been added in order. */
  function BucketAfter(local: Id, i: nat, h: seq<Contact>): seq<Contact> {
    if h == [] then []
    else
      var before, c := BucketAfter(local, i, h[..|h| - 1]), h[|h| - 1];
      if Belongs(local, i, c.id) then See(before, c) else before
  }

  // ----- What a bucket holds, in terms of the history alone

  function Ids(cs: seq<Contact>): (ids: seq<Id>)
    ensures |ids| == |cs|
    ensures forall i | 0 <= i < |cs| :: ids[i] == cs[i].id
  {
    seq(|cs|, i requires 0 <= i < |cs| => cs[i].id)
  }

  /** One more than the position of the last sighting of `id`; 0 when it was never seen. */
  function LastSeen(h: seq<Contact>, id: Id): (n: nat)
    ensures n <= |h|
    ensures n > 0 ==> h[n - 1].id == id
    ensures forall j | n <= j < |h| :: h[j].id != id
  {
    if h == [] then 0 else if h[|h| - 1].id == id then |h| else LastSeen(h[..|h| - 1], id)
  }

  /** The identifier was seen and belongs in bucket `i`. */
  predicate Candidate(local: Id, i: nat, h: seq<Contact>, id: Id) {
    Belongs(local, i, id) && LastSeen(h, id) > 0
  }

  /** The list is ordered by last sighting; in particular no identifier occurs twice. */
  predicate ByRecency(h: seq<Contact>, ids: seq<Id>) {
    forall a, b | 0 <= a < b < |ids| :: LastSeen(h, ids[a]) < LastSeen(h, ids[b])
  }

  /**
   * The bucket lists candidates only, in order of last sighting, at most 20 of them; a candidate is missing
   * only when the bucket is full and everything in it was seen later.
   */
  ghost predicate IsMostRecent(local: Id, i: nat, h: seq<Contact>, ids: seq<Id>) {
    && |ids| <= 20
    && ByRecency(h, ids)
    && (forall a | 0 <= a < |ids| :: Candidate(local, i, h, ids[a]))
    && (forall id | Candidate(local, i, h, id) && id !in ids ::
          |ids| == 20 && forall a | 0 <= a < |ids| :: LastSeen(h, id) < LastSeen(h, ids[a]))
  }

  lemma LastSeenSnoc(h: seq<Contact>, c: Contact, id: Id)
    ensures LastSeen(h + [c], id) == if c.id == id then |h| + 1 else LastSeen(h, id)
  {
    assert (h + [c])[..|h|] == h;
  }

  /** A sighting of something that does not belong here changes nothing. */
  lemma OtherSighting(local: Id, i: nat, h: seq<Contact>, c: Contact, ids: seq<Id>)
    requires IsMostRecent(local, i, h, ids) && !Belongs(local, i, c.id)
    ensures IsMostRecent(local, i, h + [c], ids)
  {
    forall id
      ensures Belongs(local, i, id) ==> LastSeen(h + [c], id) == LastSeen(h, id)
    {
      LastSeenSnoc(h, c, id);
    }
    forall a | 0 <= a < |ids|
      ensures Candidate(local, i, h + [c], ids[a]) && LastSeen(h + [c], ids[a]) == LastSeen(h, ids[a])
    {
      assert Candidate(local, i, h, ids[a]);
    }
    forall id | Candidate(local, i, h + [c], id) && id !in ids
      ensures |ids| == K && forall a | 0 <= a < |ids| :: LastSeen(h + [c], id) < LastSeen(h + [c], ids[a])
    {
      assert Candidate(local, i, h, id);
    }
  }

  function KeptIds(ids: seq<Id>, x: Id): seq<Id> {
    if x in ids then Without(ids, x) else if |ids| >= K then ids[1..] else ids
  }

  function Without(ids: seq<Id>, x: Id): (r: seq<Id>)
    requires x in ids
    ensures |r| == |ids| - 1
  {
    if ids[0] == x then ids[1..] else [ids[0]] + Without(ids[1..], x)
  }

  lemma {:induction false} WithoutMembers(h: seq<Contact>, ids: seq<Id>, x: Id, id: Id)
    requires x in ids && ByRecency(h, ids)
    ensures id in Without(ids, x) <==> id in ids && id != x
  {
    if ids[0] == x {
      assert forall a | 0 < a < |ids| :: LastSeen(h, ids[0]) < LastSeen(h, ids[a]);
    } else {
      WithoutMembers(h, ids[1..], x, id);
      assert LastSeen(h, ids[0]) == LastSeen(h, ids[0]);
    }
  }

  lemma RecencyIsDistinct(h: seq<Contact>, ids: seq<Id>, a: nat, b: nat)
    requires ByRecency(h, ids) && a < |ids| && b < |ids|
    ensures ids[a] == ids[b] ==> a == b
  {
    if a < b {
      assert LastSeen(h, ids[a]) < LastSeen(h, ids[b]);
    } else if b < a {
      assert LastSeen(h, ids[b]) < LastSeen(h, ids[a]);
    }
  }

  lemma DropKeepsOrder(h: seq<Contact>, ids: seq<Id>, k: nat)
    requires ByRecency(h, ids) && k < |ids|
    ensures ByRecency(h, ids[..k] + ids[k + 1..])
  {
  }

  lemma WithoutKeepsOrder(h: seq<Contact>, ids: seq<Id>, x: Id)
    requires x in ids && ByRecency(h, ids)
    ensures ByRecency(h, Without(ids, x))
  {
    var k :| 0 <= k < |ids| && ids[k] == x;
    forall j | 0 <= j < k
      ensures ids[j] != x
    {
      RecencyIsDistinct(h, ids, j, k);
    }
    WithoutAt(ids, x, k);
    DropKeepsOrder(h, ids, k);
  }

  lemma KeptAreOld(ids: seq<Id>, x: Id)
    ensures forall id | id in KeptIds(ids, x) :: id in ids
  {
    if x in ids {
      WithoutIsOld(ids, x);
    }
  }

  lemma {:induction false} WithoutIsOld(ids: seq<Id>, x: Id)
    requires x in ids
    ensures forall id | id in Without(ids, x) :: id in ids
  {
    if ids[0] != x {
      WithoutIsOld(ids[1..], x);
    }
  }

  lemma KeptOrder(h: seq<Contact>, ids: seq<Id>, x: Id)
    requires ByRecency(h, ids)
    ensures ByRecency(h, KeptIds(ids, x)) && x !in KeptIds(ids, x)
  {
    if x in ids {
      WithoutKeepsOrder(h, ids, x);
      WithoutMembers(h, ids, x, x);
    }
  }

  /** A candidate that is not kept was already missing, or was the evicted head. */
  lemma DroppedIsOlder(local: Id, i: nat, h: seq<Contact>, ids: seq<Id>, x: Id, id: Id)
    requires IsMostRecent(local, i, h, ids) && Candidate(local, i, h, id)
    requires id != x && id !in KeptIds(ids, x)
    ensures |KeptIds(ids, x)| + 1 == K
    ensures forall y | y in KeptIds(ids, x) :: LastSeen(h, id) < LastSeen(h, y)
  {
    KeptAreOld(ids, x);
    if x in ids {
      WithoutMembers(h, ids, x, id);
      assert id !in ids;
    } else if id in ids {
      assert id == ids[0];
    }
  }

  /** Appending the newest sighting to a list ordered before it. */
  lemma SnocKeepsOrder(h: seq<Contact>, c: Contact, kept: seq<Id>)
    requires ByRecency(h, kept) && c.id !in kept
    ensures ByRecency(h + [c], kept + [c.id])
  {
    var ids' := kept + [c.id];
    forall a, b | 0 <= a < b < |ids'|
      ensures LastSeen(h + [c], ids'[a]) < LastSeen(h + [c], ids'[b])
    {
      LastSeenSnoc(h, c, ids'[a]);
      LastSeenSnoc(h, c, ids'[b]);
      assert ids'[a] in kept;
    }
  }

  lemma KeptAreCandidates(local: Id, i: nat, h: seq<Contact>, c: Contact, ids: seq<Id>, id: Id)
    requires IsMostRecent(local, i, h, ids) && Belongs(local, i, c.id)
    requires id in KeptIds(ids, c.id) + [c.id]
    ensures Candidate(local, i, h + [c], id)
  {
    LastSeenSnoc(h, c, id);
    if id != c.id {
      KeptAreOld(ids, c.id);
      var b :| 0 <= b < |ids| && ids[b] == id;
      assert Candidate(local, i, h, ids[b]);
    }
  }

  lemma MissingIsOlder(local: Id, i: nat, h: seq<Contact>, c: Contact, ids: seq<Id>, id: Id)
    requires IsMostRecent(local, i, h, ids) && Belongs(local, i, c.id)
    requires Candidate(local, i, h + [c], id) && id !in KeptIds(ids, c.id) && id != c.id
    ensures |KeptIds(ids, c.id)| + 1 == K
    ensures forall y | y in KeptIds(ids, c.id) + [c.id] :: LastSeen(h + [c], id) < LastSeen(h + [c], y)
  {
    LastSeenSnoc(h, c, id);
    DroppedIsOlder(local, i, h, ids, c.id, id);
    forall y | y in KeptIds(ids, c.id) + [c.id]
      ensures LastSeen(h + [c], id) < LastSeen(h + [c], y)
    {
      LastSeenSnoc(h, c, y);
    }
  }

  /** The new list is the kept part of the old one, then the contact just seen. */
  lemma NewSighting(local: Id, i: nat, h: seq<Contact>, c: Contact, ids: seq<Id>)
    requires IsMostRecent(local, i, h, ids) && Belongs(local, i, c.id)
    ensures IsMostRecent(local, i, h + [c], KeptIds(ids, c.id) + [c.id])
  {
    hide LastSeen, Candidate, Belongs;
    var kept := KeptIds(ids, c.id);
    var ids' := kept + [c.id];
    assert |ids'| <= K;
    hide KeptIds;
    KeptOrder(h, ids, c.id);
    SnocKeepsOrder(h, c, kept);
    forall a | 0 <= a < |ids'|
      ensures Candidate(local, i, h + [c], ids'[a])
    {
      KeptAreCandidates(local, i, h, c, ids, ids'[a]);
    }
    forall id | Candidate(local, i, h + [c], id) && id !in ids'
      ensures |ids'| == K && forall a | 0 <= a < |ids'| :: LastSeen(h + [c], id) < LastSeen(h + [c], ids'[a])
    {
      assert c.id in ids';
      assert forall y | y in kept :: y in ids';
      MissingIsOlder(local, i, h, c, ids, id);
    }
  }

  lemma SeeIsKept(bucket: seq<Contact>, c: Contact)
    ensures Ids(See(bucket, c)) == KeptIds(Ids(bucket), c.id) + [c.id]
  {
    if IndexOf(bucket, c.id) < |bucket| {
      KnownIsKept(bucket, c);
    } else {
      NewIsKept(bucket, c);
    }
  }

  lemma IdsOfParts(bucket: seq<Contact>, i: nat, j: nat, c: Contact)
    requires i <= j <= |bucket|
    ensures Ids(bucket[..i] + bucket[j..] + [c]) == Ids(bucket)[..i] + Ids(bucket)[j..] + [c.id]
  {
  }

  lemma KnownIsKept(bucket: seq<Contact>, c: Contact)
    requires IndexOf(bucket, c.id) < |bucket|
    ensures Ids(See(bucket, c)) == KeptIds(Ids(bucket), c.id) + [c.id]
  {
    hide IndexOf, Without;
    var i, ids := IndexOf(bucket, c.id), Ids(bucket);
    assert ids[i] == c.id;
    WithoutAt(ids, c.id, i);
    hide Ids;
    IdsOfParts(bucket, i, i + 1, c);
    IdsOfParts(bucket, i, i + 1, bucket[i]);
  }

  lemma NewIsKept(bucket: seq<Contact>, c: Contact)
    requires IndexOf(bucket, c.id) == |bucket|
    ensures Ids(See(bucket, c)) == KeptIds(Ids(bucket), c.id) + [c.id]
  {
    hide IndexOf, Without;
    assert c.id !in Ids(bucket);
    hide Ids;
    var from := if |bucket| >= K then 1 else 0;
    IdsOfParts(bucket, 0, from, c);
    DropNone(bucket, from);
    DropNone(Ids(bucket), from);
  }

  lemma DropNone<T>(xs: seq<T>, from: nat)
    requires from <= |xs|
    ensures xs[..0] + xs[from..] == xs[from..] && (from == 0 ==> xs[from..] == xs)
  {
  }

  lemma {:induction false} WithoutAt(ids: seq<Id>, x: Id, i: nat)
    requires i < |ids| && ids[i] == x && forall j | 0 <= j < i :: ids[j] != x
    ensures x in ids && Without(ids, x) == ids[..i] + ids[i + 1..]
  {
    if i > 0 {
      assert ids[1..][i - 1] == x;
      WithoutAt(ids[1..], x, i - 1);
      assert ids[..i] + ids[i + 1..] == [ids[0]] + (ids[1..][..i - 1] + ids[1..][i..]);
    }
  }

  /** After any history each bucket holds exactly the K most recently seen of its candidates, oldest first. */
  lemma {:induction false} BucketIsMostRecent(local: Id, i: nat, h: seq<Contact>)
    ensures IsMostRecent(local, i, h, Ids(BucketAfter(local, i, h)))
  {
    if h == [] {
    } else {
      var before, c := h[..|h| - 1], h[|h| - 1];
      var bucket := BucketAfter(local, i, before);
      assert h == before + [c];
      BucketIsMostRecent(local, i, before);
      if Belongs(local, i, c.id) {
        SeeIsKept(bucket, c);
        NewSighting(local, i, before, c, Ids(bucket));
      } else {
        OtherSighting(local, i, before, c, Ids(bucket));
      }
    }
  }

  /** Which identifiers there are, and when each was last seen, determines the list. */
  lemma {:induction false} RecencyIsUnique(h: seq<Contact>, p: seq<Id>, q: seq<Id>)
    requires ByRecency(h, p) && ByRecency(h, q) && forall id: Id :: id in p <==> id in q
    ensures p == q
  {
    hide LastSeen;
    DistinctCount(h, p);
    DistinctCount(h, q);
    assert IdSet(p) == IdSet(q);
    if p != [] {
      FirstIsEarliest(h, p, q[0]);
      FirstIsEarliest(h, q, p[0]);
      forall id: Id
        ensures id in p[1..] <==> id in q[1..]
      {
        TailMembers(h, p, id);
        TailMembers(h, q, id);
      }
      RecencyIsUnique(h, p[1..], q[1..]);
    }
  }

  lemma FirstIsEarliest(h: seq<Contact>, p: seq<Id>, id: Id)
    requires ByRecency(h, p) && id in p
    ensures LastSeen(h, p[0]) <= LastSeen(h, id)
    ensures LastSeen(h, p[0]) == LastSeen(h, id) ==> p[0] == id
  {
    hide LastSeen;
    var a :| 0 <= a < |p| && p[a] == id;
  }

  lemma TailMembers(h: seq<Contact>, p: seq<Id>, id: Id)
    requires ByRecency(h, p) && p != []
    ensures id in p[1..] <==> id in p && id != p[0]
  {
    hide LastSeen;
    if id in p[1..] {
      var a :| 0 <= a < |p[1..]| && p[1..][a] == id;
      RecencyIsDistinct(h, p, 0, a + 1);
    }
  }

  /** The most-recent description determines the bucket's identifiers and their order. */
  lemma MostRecentIsUnique(local: Id, i: nat, h: seq<Contact>, p: seq<Id>, q: seq<Id>)
    requires IsMostRecent(local, i, h, p) && IsMostRecent(local, i, h, q)
    ensures p == q
  {
    forall id: Id
      ensures id in p <==> id in q
    {
      OnlyInOne(local, i, h, p, q, id);
      OnlyInOne(local, i, h, q, p, id);
    }
    RecencyIsUnique(h, p, q);
  }

  lemma MemberIsCandidate(local: Id, i: nat, h: seq<Contact>, ids: seq<Id>, id: Id)
    requires IsMostRecent(local, i, h, ids) && id in ids
    ensures Candidate(local, i, h, id)
  {
    var a :| 0 <= a < |ids| && ids[a] == id;
    assert Candidate(local, i, h, ids[a]);
  }

  lemma MissingIsEarlier(local: Id, i: nat, h: seq<Contact>, ids: seq<Id>, id: Id, y: Id)
    requires IsMostRecent(local, i, h, ids) && Candidate(local, i, h, id) && id !in ids && y in ids
    ensures LastSeen(h, id) < LastSeen(h, y)
  {
  }

  lemma OnlyInOne(local: Id, i: nat, h: seq<Contact>, p: seq<Id>, q: seq<Id>, id: Id)
    requires IsMostRecent(local, i, h, p) && IsMostRecent(local, i, h, q)
    ensures id in p ==> id in q
  {
    if id in p && id !in q {
      MemberIsCandidate(local, i, h, p, id);
      var P, Q := IdSet(p), IdSet(q);
      DistinctCount(h, p);
      DistinctCount(h, q);
      var y := AnotherMember(P, Q, id);
      MemberIsCandidate(local, i, h, q, y);
      MissingIsEarlier(local, i, h, q, id, y);
      MissingIsEarlier(local, i, h, p, y, id);
      assert false;
    }
  }

  lemma AnotherMember(P: set<Id>, Q: set<Id>, id: Id) returns (y: Id)
    requires |P| <= |Q| && id in P && id !in Q
    ensures y in Q && y !in P
  {
    assert P == (P - Q) + (P * Q) && Q == (Q - P) + (P * Q);
    assert |P - Q| > 0 by { assert id in P - Q; }
    assert |Q - P| > 0;
    y :| y in Q - P;
  }

  function IdSet(ids: seq<Id>): (s: set<Id>)
    ensures forall x :: x in s <==> x in ids
  {
    set x | x in ids
  }

  lemma {:induction false} DistinctCount(h: seq<Contact>, ids: seq<Id>)
    requires ByRecency(h, ids)
    ensures |IdSet(ids)| == |ids|
  {
    if ids != [] {
      var tail := ids[1..];
      DistinctCount(h, tail);
      forall a | 0 <= a < |tail|
        ensures tail[a] != ids[0]
      {
        RecencyIsDistinct(h, ids, 0, a + 1);
      }
      assert ids[0] !in tail;
      assert IdSet(ids) == {ids[0]} + IdSet(tail);
    }
  }

  lemma ContactBelongs(local: Id, i: nat, h: seq<Contact>, c: Contact)
    requires c in BucketAfter(local, i, h)
    ensures Candidate(local, i, h, c.id)
  {
    var bucket := BucketAfter(local, i, h);
    BucketIsMostRecent(local, i, h);
    var a :| 0 <= a < |bucket| && bucket[a] == c;
    assert Candidate(local, i, h, Ids(bucket)[a]);
  }

  /** No identifier occurs twice in the whole table. */
  lemma NoDuplicates(local: Id, i: nat, j: nat, h: seq<Contact>, a: nat, b: nat)
    requires a < |BucketAfter(local, i, h)| && b < |BucketAfter(local, j, h)|
    requires BucketAfter(local, i, h)[a].id == BucketAfter(local, j, h)[b].id
    ensures i == j && a == b
  {
    ContactBelongs(local, i, h, BucketAfter(local, i, h)[a]);
    ContactBelongs(local, j, h, BucketAfter(local, j, h)[b]);
    BucketIsMostRecent(local, i, h);
    var ids := Ids(BucketAfter(local, i, h));
    if i == j {
      RecencyIsDistinct(h, ids, a, b);
    }
  }

  lemma BucketIsDistinct(local: Id, i: nat, h: seq<Contact>)
    ensures DistinctIds(BucketAfter(local, i, h))
  {
    hide BucketAfter;
    var bucket := BucketAfter(local, i, h);
    forall a, b | 0 <= a < b < |bucket|
      ensures bucket[a].id != bucket[b].id
    {
      if bucket[a].id == bucket[b].id {
        NoDuplicates(local, i, i, h, a, b);
      }
    }
  }

  /** Where a contact of a bucket comes from after a sighting: from that sighting, or from the bucket before. */
  lemma InSeen(bucket: seq<Contact>, last: Contact, c: Contact)
    requires c in See(bucket, last) && DistinctIds(See(bucket, last))
    ensures c == last || c in bucket
    ensures c.id == last.id && last.addr != [] ==> c == last
    ensures c.id == last.id && last.addr == [] && last.id in Ids(bucket) ==> c in bucket
  {
    var r := See(bucket, last);
    var a :| 0 <= a < |r| && r[a] == c;
    assert r[|r| - 1].id == last.id;
    hide DistinctIds;
    assert a < |r| - 1 ==> c in bucket;
  }

  lemma BucketSnoc(local: Id, i: nat, h: seq<Contact>, c: Contact)
    ensures BucketAfter(local, i, h + [c]) ==
      var before := BucketAfter(local, i, h); if Belongs(local, i, c.id) then See(before, c) else before
  {
    assert (h + [c])[..|h|] == h;
  }

  /** The last non-empty address that `id` was seen with, or the empty one when there is none. */
  function LatestAddress(h: seq<Contact>, id: Id): Buf {
    if h == [] then []
    else
      var last := h[|h| - 1];
      if last.id == id && last.addr != [] then last.addr else LatestAddress(h[..|h| - 1], id)
  }

  /** `id` entered the bucket with sighting number `start` and has not left it since. */
  predicate ListedSince(local: Id, i: nat, h: seq<Contact>, id: Id, start: nat) {
    && start < |h| && h[start].id == id && id !in Ids(BucketAfter(local, i, h[..start]))
    && forall t | start < t <= |h| :: id in Ids(BucketAfter(local, i, h[..t]))
  }

  lemma ListedSinceSnoc(local: Id, i: nat, h: seq<Contact>, last: Contact, id: Id, start: nat)
    requires ListedSince(local, i, h, id, start) && id in Ids(BucketAfter(local, i, h + [last]))
    ensures ListedSince(local, i, h + [last], id, start)
    ensures LatestAddress((h + [last])[start..], id) ==
      if last.id == id && last.addr != [] then last.addr else LatestAddress(h[start..], id)
  {
    hide BucketAfter, Ids;
    var h' := h + [last];
    assert h'[..start] == h[..start];
    forall t | start < t <= |h'|
      ensures id in Ids(BucketAfter(local, i, h'[..t]))
    {
      if t <= |h| {
        assert h'[..t] == h[..t];
      } else {
        assert h'[..t] == h';
      }
    }
    assert h'[start..] == h[start..] + [last] && h'[start..][..|h| - start] == h[start..];
  }

  lemma ListedSinceNow(local: Id, i: nat, h: seq<Contact>, last: Contact)
    requires last.id !in Ids(BucketAfter(local, i, h)) && last.id in Ids(BucketAfter(local, i, h + [last]))
    ensures ListedSince(local, i, h + [last], last.id, |h|)
    ensures LatestAddress((h + [last])[|h|..], last.id) == last.addr
  {
    hide BucketAfter, Ids;
    var h' := h + [last];
    assert h'[..|h|] == h && h'[..|h'|] == h' && h'[|h|..] == [last];
    assert [last][..0] == [];
  }

  lemma IdsMembers(cs: seq<Contact>, id: Id)
    ensures id in Ids(cs) <==> exists k :: 0 <= k < |cs| && cs[k].id == id
  {
    if id in Ids(cs) {
      var k :| 0 <= k < |Ids(cs)| && Ids(cs)[k] == id;
      assert cs[k].id == id;
    }
    if k :| 0 <= k < |cs| && cs[k].id == id {
      assert Ids(cs)[k] == id;
    }
  }

  lemma SameContact(cs: seq<Contact>, c: Contact, d: Contact)
    requires DistinctIds(cs) && c in cs && d in cs && c.id == d.id
    ensures c == d
  {
  }

  /** Whether the contact was listed before, and as what, decides where it comes from. */
  lemma StoredFrom(local: Id, i: nat, before: seq<Contact>, last: Contact, c: Contact) returns (d: Contact)
    requires c in BucketAfter(local, i, before + [last])
    ensures c.id in Ids(BucketAfter(local, i, before)) ==>
      && d in BucketAfter(local, i, before) && d.id == c.id
      && c == if last.id == c.id && last.addr != [] then last else d
    ensures c.id !in Ids(BucketAfter(local, i, before)) ==> c == last
  {
    var bucket := BucketAfter(local, i, before);
    d := c;
    BucketIsDistinct(local, i, before);
    BucketIsDistinct(local, i, before + [last]);
    BucketSnoc(local, i, before, last);
    ContactBelongs(local, i, before + [last], c);
    hide BucketAfter, See, LastSeen, DistinctIds, Ids;
    if Belongs(local, i, last.id) {
      InSeen(bucket, last, c);
    }
    IdsMembers(bucket, c.id);
    if c.id in Ids(bucket) {
      var k :| 0 <= k < |bucket| && bucket[k].id == c.id;
      d := bucket[k];
      if c in bucket {
        SameContact(bucket, c, d);
      }
    }
  }

  lemma ListedWasSeen(local: Id, i: nat, h: seq<Contact>, c: Contact)
    requires c in BucketAfter(local, i, h)
    ensures h != [] && LastSeen(h, c.id) > 0
  {
    ContactBelongs(local, i, h, c);
    hide BucketAfter, LastSeen;
  }

  /**
   * The stored address is the last non-empty one that the contact was seen with since it entered the bucket. In
   * particular it was reported for that identifier, and a non-empty one from the last sighting is the one stored.
   */
  lemma {:induction false} StoredAddress(local: Id, i: nat, h: seq<Contact>, c: Contact) returns (start: nat)
    requires c in BucketAfter(local, i, h)
    ensures ListedSince(local, i, h, c.id, start) && c.addr == LatestAddress(h[start..], c.id)
    ensures c in h
    ensures var n := LastSeen(h, c.id); n > 0 && (h[n - 1].addr != [] ==> c == h[n - 1])
    decreases |h|
  {
    hide BucketAfter, Belongs, Candidate, LastSeen, Ids, ListedSince, LatestAddress;
    ListedWasSeen(local, i, h, c);
    var before, last := h[..|h| - 1], h[|h| - 1];
    assert h == before + [last];
    IdsMembers(BucketAfter(local, i, h), c.id);
    LastSeenSnoc(before, last, c.id);
    var d := StoredFrom(local, i, before, last, c);
    if c.id in Ids(BucketAfter(local, i, before)) {
      start := StoredAddress(local, i, before, d);
      ListedSinceSnoc(local, i, before, last, c.id, start);
    } else {
      start := |before|;
      ListedSinceNow(local, i, before, last);
    }
  }

  // ----- The whole table

  /** All contacts of the first `n` buckets, bucket after bucket. */
  function ContactsAfter(local: Id, h: seq<Contact>, n: nat): seq<Contact> {
    if n == 0 then [] else ContactsAfter(local, h, n - 1) + BucketAfter(local, n - 1, h)
  }

  lemma {:induction false} ContactIsInItsBucket(local: Id, h: seq<Contact>, n: nat, c: Contact)
    ensures c in ContactsAfter(local, h, n) <==>
            Prefix(local, c.id) < n && c in BucketAfter(local, Prefix(local, c.id), h)
  {
    hide BucketAfter, Prefix;
    if n > 0 {
      ContactIsInItsBucket(local, h, n - 1, c);
      if c in BucketAfter(local, n - 1, h) {
        ContactBelongs(local, n - 1, h, c);
      }
    }
  }

  lemma {:induction false} ContactsAreDistinct(local: Id, h: seq<Contact>, n: nat)
    ensures DistinctIds(ContactsAfter(local, h, n))
  {
    if n > 0 {
      var front, bucket := ContactsAfter(local, h, n - 1), BucketAfter(local, n - 1, h);
      ContactsAreDistinct(local, h, n - 1);
      var all := front + bucket;
      forall a, b | 0 <= a < b < |all|
        ensures all[a].id != all[b].id
      {
        if |front| <= a {
          if all[a].id == all[b].id {
            NoDuplicates(local, n - 1, n - 1, h, a - |front|, b - |front|);
          }
        } else if |front| <= b {
          ContactIsInItsBucket(local, h, n - 1, all[a]);
          ContactBelongs(local, n - 1, h, all[b]);
        }
      }
    }
  }

  /** The local identifier is never in the table. */
  lemma NeverLocal(local: Id, h: seq<Contact>, n: nat, c: Contact)
    requires c in ContactsAfter(local, h, n)
    ensures c.id != local
  {
    ContactIsInItsBucket(local, h, n, c);
    ContactBelongs(local, Prefix(local, c.id), h, c);
  }

  class Table {
    const localID: Id
    const buckets: array<seq<Contact>>
    /** Every contact added so far. */
    ghost var history: seq<Contact>

    ghost predicate Valid()
      reads this, buckets
    {
      buckets.Length == BUCKET_COUNT &&
      forall i | 0 <= i < BUCKET_COUNT :: buckets[i] == BucketAfter(localID, i, history)
    }

    ghost function Contacts(): seq<Contact>
      reads this
    {
      ContactsAfter(localID, history, buckets.Length)
    }

    constructor (localID: Id)
      ensures Valid() && this.localID == localID && history == [] && fresh(buckets)
    {
      this.localID := localID;
      history := [];
      buckets := new seq<Contact>[BUCKET_COUNT](_ => []);
    }

    method AddContact(c: Contact)
      requires Valid()
      modifies this`history, buckets
      ensures Valid() && history == old(history) + [c]
    {
      history := history + [c];
      assert history[..|history| - 1] == old(history);
      if c.id == localID {
        return;
      }
      var idx := CommonPrefixLength(localID, c.id);
      var bucket := buckets[idx];
      var existsIdx := 0;
      while existsIdx < |bucket| && bucket[existsIdx].id != c.id
        invariant existsIdx <= |bucket|
        invariant forall j | 0 <= j < existsIdx :: bucket[j].id != c.id
      {
        existsIdx := existsIdx + 1;
      }
      if existsIdx < |bucket| {
        if c.addr != [] {
          bucket := bucket[existsIdx := bucket[existsIdx].(addr := c.addr)];
        }
        var updatedContact := bucket[existsIdx];
        bucket := bucket[..existsIdx] + bucket[existsIdx + 1..];
        bucket := bucket + [updatedContact];
      } else {
        if |bucket| >= K {
          bucket := bucket[1..];
        }
        bucket := bucket + [c];
      }
      assert bucket == See(buckets[idx], c);
      buckets[idx] := bucket;
    }

    method AllContacts() returns (all: seq<Contact>)
      requires Valid()
      ensures all == Contacts()
    {
      all := [];
      for i := 0 to buckets.Length
        invariant all == ContactsAfter(localID, history, i)
      {
        all := all + buckets[i];
      }
    }

    /** The unique ascending list of the `count` nearest contacts in the table. */
    method FindClosestPeers(target: Id, count: nat) returns (results: seq<Contact>)
      requires Valid()
      ensures IsClosest(results, Contacts(), target, count)
    {
      ContactsAreDistinct(localID, history, buckets.Length);
      var all := AllContacts();
      results := Nearest(all, target, count);
    }
  }
}
