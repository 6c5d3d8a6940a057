/** The iterative node lookup against arbitrary responders (pkg/dht/dht.go). */
module Lookup {
  import opened Bytes
  import opened NodeId
  import opened Closest
  import RoutingTable

  /** How many contacts one round asks at the same time. */
  const ALPHA: nat := 3

  const RESULT_SIZE: nat := 20

  /**
   * What a contact answers when it is asked: no answer, or a list of contacts. A lookup asks each contact at
   * most once, so one function covers every behaviour of the network during one lookup.
   */
  type Responder = Contact -> Option<seq<Contact>>

  // ----- What a finished lookup has done

  /** The contact came from the routing table, or from the answer of one of these queries. */
  ghost predicate Known(candidates: seq<Contact>, respond: Responder, queries: seq<Contact>, c: Contact) {
    || c in candidates
    || exists j :: 0 <= j < |queries| && Names(respond, queries[j], c)
  }

  predicate Names(respond: Responder, q: Contact, c: Contact) {
    respond(q).Some? && c in respond(q).value
  }

  predicate Asked(queries: seq<Contact>, id: Id) {
    exists j :: 0 <= j < |queries| && queries[j].id == id
  }

  function Answered(queries: seq<Contact>, respond: Responder): seq<Contact> {
    if queries == [] then []
    else (if respond(queries[0]).Some? then [queries[0]] else []) + Answered(queries[1..], respond)
  }

  /**
   * Every identifier that was ever named, the local one apart, was asked exactly once; nothing else was asked,
   * and each contact was known before it was asked; the result is the nearest of those that answered.
   */
  ghost predicate IsLookup(local: Id, target: Id, candidates: seq<Contact>, respond: Responder,
                           queries: seq<Contact>, closest: seq<Contact>) {
    && DistinctIds(queries)
    && (forall c :: c in candidates ==> Asked(queries, c.id))
    && (forall q, c :: q in queries && Names(respond, q, c) && c.id != local ==> Asked(queries, c.id))
    && (forall k | 0 <= k < |queries| ::
          queries[k].id != local && Known(candidates, respond, queries[..k], queries[k]))
    && IsClosest(closest, Answered(queries, respond), target, 20)
  }

  // ----- The invariant of the search

  /** The contact was asked, its result has been read, and there was no answer. */
  predicate Failed(respond: Responder, queries: seq<Contact>, pending: set<Contact>, c: Contact) {
    c in queries && c !in pending && respond(c).None?
  }

  /** What has been named was known, and holds the candidates and what the answers read so far name. */
  ghost predicate NamedOk(local: Id, candidates: seq<Contact>, respond: Responder, queries: seq<Contact>,
                          pending: set<Contact>, named: map<Id, Contact>) {
    && (forall id | id in named :: named[id].id == id && id != local && Known(candidates, respond, queries, named[id]))
    && (forall q, c | q in queries && q !in pending && Names(respond, q, c) :: c.id == local || c.id in named)
    && (forall c | c in candidates :: c.id in named)
  }

  /** The list holds what has been named and has not failed. */
  predicate ListOk(respond: Responder, queries: seq<Contact>, pending: set<Contact>,
                   list: seq<Contact>, named: map<Id, Contact>) {
    && DistinctIds(list) && (forall c | c in list :: c.id in named && named[c.id] == c)
    && (forall id | id in named :: named[id] in list <==> !Failed(respond, queries, pending, named[id]))
  }

  /** What was asked had been named, and each contact was known before it was asked. */
  ghost predicate AskedOk(candidates: seq<Contact>, respond: Responder, queries: seq<Contact>,
                          pending: set<Contact>, named: map<Id, Contact>) {
    && DistinctIds(queries) && (forall q | q in queries :: q.id in named && named[q.id] == q)
    && (forall p | p in pending :: p in queries)
    && (forall k | 0 <= k < |queries| :: Known(candidates, respond, queries[..k], queries[k]))
  }

  ghost predicate Tracked(local: Id, candidates: seq<Contact>, respond: Responder, queries: seq<Contact>,
                          pending: set<Contact>, list: seq<Contact>, named: map<Id, Contact>) {
    && NamedOk(local, candidates, respond, queries, pending, named)
    && ListOk(respond, queries, pending, list, named)
    && AskedOk(candidates, respond, queries, pending, named)
  }

  lemma KnownStays(candidates: seq<Contact>, respond: Responder, queries: seq<Contact>, more: seq<Contact>, c: Contact)
    requires Known(candidates, respond, queries, c)
    ensures Known(candidates, respond, queries + more, c)
  {
    if c !in candidates {
      var j :| 0 <= j < |queries| && Names(respond, queries[j], c);
      assert (queries + more)[j] == queries[j];
    }
  }

  /** A batch of listed, unasked contacts is sent out. */
  lemma AskKeepsTracked(local: Id, candidates: seq<Contact>, respond: Responder, queries: seq<Contact>,
                        list: seq<Contact>, named: map<Id, Contact>, batch: seq<Contact>)
    requires Tracked(local, candidates, respond, queries, {}, list, named)
    requires DistinctIds(batch) && forall c | c in batch :: c in list && !Asked(queries, c.id)
    ensures Tracked(local, candidates, respond, queries + batch, Members(batch), list, named)
  {
    var queries', pending := queries + batch, Members(batch);
    forall id | id in named
      ensures Known(candidates, respond, queries', named[id])
      ensures named[id] in list <==> !Failed(respond, queries', pending, named[id])
    {
      KnownStays(candidates, respond, queries, batch, named[id]);
      if named[id] in batch {
        assert !Failed(respond, queries, {}, named[id]);
      } else {
        assert Failed(respond, queries', pending, named[id]) == Failed(respond, queries, {}, named[id]);
      }
    }
    forall i, j | 0 <= i < j < |queries'|
      ensures queries'[i].id != queries'[j].id
    {
      if i < |queries| <= j {
        assert queries'[j] in batch;
      }
    }
    forall k | 0 <= k < |queries'|
      ensures Known(candidates, respond, queries'[..k], queries'[k])
    {
      if k < |queries| {
        assert queries'[..k] == queries[..k];
      } else {
        var c := queries'[k];
        assert c in batch && named[c.id] == c;
        KnownStays(candidates, respond, queries, batch[..k - |queries|], c);
        assert queries'[..k] == queries + batch[..k - |queries|];
      }
    }
  }

  /** A contact named for the first time is listed. */
  lemma NameKeepsTracked(local: Id, candidates: seq<Contact>, respond: Responder, queries: seq<Contact>,
                         pending: set<Contact>, list: seq<Contact>, named: map<Id, Contact>, q: Contact, c: Contact)
    requires Tracked(local, candidates, respond, queries, pending, list, named)
    requires q in queries && Names(respond, q, c) && c.id != local && c.id !in named
    ensures Tracked(local, candidates, respond, queries, pending, list + [c], named[c.id := c])
  {
    KnownFromAnswer(candidates, respond, queries, q, c);
    NameKeepsList(candidates, respond, queries, pending, list, named, c);
    NameKeepsAsked(candidates, respond, queries, pending, named, c);
    hide Known, Names, ListOk, AskedOk;
  }

  lemma NameKeepsList(candidates: seq<Contact>, respond: Responder, queries: seq<Contact>, pending: set<Contact>,
                      list: seq<Contact>, named: map<Id, Contact>, c: Contact)
    requires ListOk(respond, queries, pending, list, named) && AskedOk(candidates, respond, queries, pending, named)
    requires c.id !in named && forall id | id in named :: named[id].id == id
    ensures ListOk(respond, queries, pending, list + [c], named[c.id := c])
  {
    assert c !in queries;
    hide AskedOk;
    var list' := list + [c];
    DistinctWithOneMore(list, c);
    forall id | id in named
      ensures named[id] in list' <==> !Failed(respond, queries, pending, named[id])
    {
      assert named[id] in list' <==> named[id] in list || named[id] == c;
    }
  }

  lemma NameKeepsAsked(candidates: seq<Contact>, respond: Responder, queries: seq<Contact>, pending: set<Contact>,
                       named: map<Id, Contact>, c: Contact)
    requires AskedOk(candidates, respond, queries, pending, named) && c.id !in named
    ensures AskedOk(candidates, respond, queries, pending, named[c.id := c])
  {
    hide Known;
  }

  lemma KnownFromAnswer(candidates: seq<Contact>, respond: Responder, queries: seq<Contact>, q: Contact, c: Contact)
    requires q in queries && Names(respond, q, c)
    ensures Known(candidates, respond, queries, c)
  {
    var j :| 0 <= j < |queries| && queries[j] == q;
    assert Names(respond, queries[j], c);
  }

  lemma DistinctWithOneMore(list: seq<Contact>, c: Contact)
    requires DistinctIds(list) && forall d | d in list :: d.id != c.id
    ensures DistinctIds(list + [c])
  {
    assert forall i | 0 <= i < |list| :: list[i] in list;
  }

  /** An answer has been merged completely. */
  lemma AnswerKeepsTracked(local: Id, candidates: seq<Contact>, respond: Responder, queries: seq<Contact>,
                           pending: set<Contact>, list: seq<Contact>, named: map<Id, Contact>, q: Contact)
    requires Tracked(local, candidates, respond, queries, pending, list, named)
    requires q in pending && respond(q).Some?
    requires forall c | c in respond(q).value :: c.id == local || c.id in named
    ensures Tracked(local, candidates, respond, queries, pending - {q}, list, named)
  {
  }

  function Without(list: seq<Contact>, id: Id): (r: seq<Contact>) {
    if list == [] then [] else if list[0].id == id then list[1..] else [list[0]] + Without(list[1..], id)
  }

  lemma TailIsDistinct(list: seq<Contact>, c: Contact)
    requires DistinctIds(list) && list != [] && c in list[1..]
    ensures c.id != list[0].id
  {
    var i :| 0 <= i < |list[1..]| && list[1..][i] == c;
    assert list[i + 1] == c;
  }

  lemma {:induction false} WithoutMembers(list: seq<Contact>, id: Id, c: Contact)
    requires DistinctIds(list)
    ensures c in Without(list, id) <==> c in list && c.id != id
  {
    if list != [] {
      WithoutMembers(list[1..], id, c);
      assert list == [list[0]] + list[1..];
      if c in list[1..] {
        TailIsDistinct(list, c);
      }
    }
  }

  lemma {:induction false} WithoutDistinct(list: seq<Contact>, id: Id)
    requires DistinctIds(list)
    ensures DistinctIds(Without(list, id))
  {
    if list != [] && list[0].id != id {
      var rest := Without(list[1..], id);
      WithoutDistinct(list[1..], id);
      forall i | 0 <= i < |rest|
        ensures rest[i].id != list[0].id
      {
        WithoutMembers(list[1..], id, rest[i]);
        TailIsDistinct(list, rest[i]);
      }
    }
  }

  /** A contact that did not answer is struck off. */
  lemma FailureKeepsTracked(local: Id, candidates: seq<Contact>, respond: Responder, queries: seq<Contact>,
                            pending: set<Contact>, list: seq<Contact>, named: map<Id, Contact>, q: Contact)
    requires Tracked(local, candidates, respond, queries, pending, list, named)
    requires q in pending && respond(q).None?
    ensures Tracked(local, candidates, respond, queries, pending - {q}, Without(list, q.id), named)
  {
    hide Without, Known;
    WithoutDistinct(list, q.id);
    forall c
      ensures c in Without(list, q.id) <==> c in list && c.id != q.id
    {
      WithoutMembers(list, q.id, c);
    }
    forall c
      ensures Failed(respond, queries, pending - {q}, c) <==> Failed(respond, queries, pending, c) || c == q
    {
      assert q in queries;
    }
    forall id | id in named
      ensures named[id] in Without(list, q.id) <==> !Failed(respond, queries, pending - {q}, named[id])
    {
      assert named[id].id == q.id <==> named[id] == q;
    }
  }

  // ----- The end of the search

  lemma {:induction false} AnsweredMembers(queries: seq<Contact>, respond: Responder)
    ensures forall c :: c in Answered(queries, respond) <==> c in queries && respond(c).Some?
  {
    if queries != [] {
      AnsweredMembers(queries[1..], respond);
      assert queries == [queries[0]] + queries[1..];
    }
  }

  lemma {:induction false} AnsweredDistinct(queries: seq<Contact>, respond: Responder)
    requires DistinctIds(queries)
    ensures DistinctIds(Answered(queries, respond))
  {
    if queries != [] {
      AnsweredDistinct(queries[1..], respond);
      AnsweredMembers(queries[1..], respond);
      forall c | c in queries[1..]
        ensures c.id != queries[0].id
      {
        var i :| 0 <= i < |queries[1..]| && queries[1..][i] == c;
        assert queries[i + 1] == c;
      }
      var rest := Answered(queries[1..], respond);
      assert forall i | 0 <= i < |rest| :: rest[i] in rest;
    }
  }

  lemma AscendingCutIsClosest(s: seq<Contact>, all: seq<Contact>, target: Id, count: nat)
    requires Ascending(s, target) && DistinctIds(all) && forall c :: c in s <==> c in all
    ensures IsClosest(s[..Min(count, |s|)], all, target, count)
  {
    AscendingIsDistinct(s, target);
    DistinctCardinality(s);
    DistinctCardinality(all);
    assert Members(s) == Members(all);
    var r := s[..Min(count, |s|)];
    forall c, d | c in all && c !in r && d in r
      ensures Nearer(d.id, c.id, target)
    {
      var i :| 0 <= i < |s| && s[i] == c;
      var j :| 0 <= j < |r| && r[j] == d;
      assert s[j] == d;
    }
  }

  /** When everything listed has been asked and every result has been read, the search is a complete lookup. */
  lemma DoneIsLookup(local: Id, target: Id, candidates: seq<Contact>, respond: Responder,
                     queries: seq<Contact>, list: seq<Contact>, named: map<Id, Contact>)
    requires Tracked(local, candidates, respond, queries, {}, list, named)
    requires Ascending(list, target) && forall c | c in list :: Asked(queries, c.id)
    ensures IsLookup(local, target, candidates, respond, queries,
                     if |list| > RESULT_SIZE then list[..RESULT_SIZE] else list)
  {
    forall id | id in named
      ensures Asked(queries, id)
    {
      if named[id] !in list {
        assert Failed(respond, queries, {}, named[id]);
      }
    }
    AnsweredMembers(queries, respond);
    AnsweredDistinct(queries, respond);
    forall c
      ensures c in list <==> c in Answered(queries, respond)
    {
      if c in list {
        var j :| 0 <= j < |queries| && queries[j].id == c.id;
        assert queries[j] in queries && queries[j] == c;
        assert !Failed(respond, queries, {}, c);
      }
      if c in queries && respond(c).Some? {
        assert !Failed(respond, queries, {}, named[c.id]);
      }
    }
    AscendingCutIsClosest(list, Answered(queries, respond), target, RESULT_SIZE);
    assert list[..|list|] == list;
    forall k | 0 <= k < |queries|
      ensures queries[k].id != local
    {
      assert queries[k] in queries;
    }
  }

  // ----- The identifier space is finite

  /** All strings of `n` numbers below `base`. */
  ghost function AllStrings(n: nat, base: nat): set<seq<int>> {
    if n == 0 then {[]}
    else set x: int, s: seq<int> | x in Below(base) && s in AllStrings(n - 1, base) :: [x] + s
  }

  ghost function Below(n: nat): (s: set<int>)
    ensures forall x :: x in s <==> 0 <= x < n
  {
    if n == 0 then {} else Below(n - 1) + {n - 1}
  }

  lemma {:induction false} AllStringsComplete(s: Buf, base: nat)
    requires base == 256
    ensures s in AllStrings(|s|, base)
  {
    if s != [] {
      AllStringsComplete(s[1..], base);
      assert s[0] in Below(base);
      assert s == [s[0]] + s[1..];
    }
  }

  /** The identifiers that have not been asked, among the finitely many there are. */
  ghost function Unasked(all: set<seq<int>>, asked: set<Id>): set<seq<int>> {
    set s | s in all && s !in asked
  }

  /** Asking a new identifier leaves fewer that can still be asked. */
  lemma FewerLeft(all: set<seq<int>>, asked: set<Id>, more: set<Id>, id: Id)
    requires id in all && id !in asked && id in more && asked <= more
    ensures |Unasked(all, more)| < |Unasked(all, asked)|
  {
    var small, big := Unasked(all, more), Unasked(all, asked);
    assert small <= big - {id};
    assert big == small + (big - small);
    assert id in big - small;
  }

  // ----- The search

  function AskedIds(queries: seq<Contact>): set<Id> {
    if queries == [] then {} else AskedIds(queries[..|queries| - 1]) + {queries[|queries| - 1].id}
  }

  lemma {:induction false} AskedIdsMembers(queries: seq<Contact>, id: Id)
    ensures id in AskedIds(queries) <==> Asked(queries, id)
  {
    if queries != [] {
      var front, last := queries[..|queries| - 1], queries[|queries| - 1];
      AskedIdsMembers(front, id);
      if Asked(front, id) {
        var j :| 0 <= j < |front| && front[j].id == id;
        assert queries[j].id == id;
      }
    }
  }

  /** The contacts of the list that have not been asked, in order. */
  function Unqueried(list: seq<Contact>, queried: set<Id>): seq<Contact> {
    if list == [] then []
    else
      var last := |list| - 1;
      Unqueried(list[..last], queried) + if list[last].id in queried then [] else [list[last]]
  }

  lemma {:induction false} UnqueriedPrefix(list: seq<Contact>, queried: set<Id>, i: nat)
    requires i <= |list|
    ensures Unqueried(list[..i], queried) <= Unqueried(list, queried)
  {
    if i == |list| {
      assert list[..i] == list;
    } else {
      UnqueriedPrefix(list[..|list| - 1], queried, i);
      assert list[..|list| - 1][..i] == list[..i];
    }
  }

  lemma {:induction false} UnqueriedMembers(list: seq<Contact>, queried: set<Id>, c: Contact)
    ensures c in Unqueried(list, queried) <==> c in list && c.id !in queried
  {
    if list != [] {
      var front := list[..|list| - 1];
      assert list == front + [list[|list| - 1]];
      UnqueriedMembers(front, queried, c);
    }
  }

  lemma {:induction false} UnqueriedDistinct(list: seq<Contact>, queried: set<Id>)
    requires DistinctIds(list)
    ensures DistinctIds(Unqueried(list, queried))
  {
    if list != [] {
      var front, last := list[..|list| - 1], list[|list| - 1];
      UnqueriedDistinct(front, queried);
      var r := Unqueried(front, queried);
      forall i | 0 <= i < |r|
        ensures r[i].id != last.id
      {
        UnqueriedMembers(front, queried, r[i]);
      }
    }
  }

  lemma UnqueriedStep(list: seq<Contact>, queried: set<Id>, i: nat)
    requires i < |list|
    ensures Unqueried(list[..i + 1], queried) ==
      Unqueried(list[..i], queried) + if list[i].id in queried then [] else [list[i]]
    ensures Unqueried(list[..i + 1], queried) <= Unqueried(list, queried)
    ensures Unqueried(list[..0], queried) == [] && list[..|list|] == list
  {
    assert list[..i + 1][..i] == list[..i];
    UnqueriedPrefix(list, queried, i + 1);
  }

  /** The first three contacts of the list that have not been asked, or all of them if there are fewer. */
  method PickUnqueried(list: seq<Contact>, queried: set<Id>) returns (toQuery: seq<Contact>)
    ensures var all := Unqueried(list, queried); toQuery == all[..Min(3, |all|)]
  {
    toQuery := [];
    for i := 0 to |list|
      invariant |toQuery| < ALPHA && toQuery == Unqueried(list[..i], queried)
    {
      UnqueriedStep(list, queried, i);
      if list[i].id !in queried {
        toQuery := toQuery + [list[i]];
        if |toQuery| >= ALPHA {
          return;
        }
      }
    }
    assert list[..|list|] == list;
  }

  lemma PickedAreUnqueried(list: seq<Contact>, queried: set<Id>)
    requires DistinctIds(list)
    ensures var all := Unqueried(list, queried);
      var picked := all[..Min(3, |all|)];
      && DistinctIds(picked)
      && (forall c | c in picked :: c in list && c.id !in queried)
      && (picked == [] ==> forall c | c in list :: c.id in queried)
  {
    UnqueriedDistinct(list, queried);
    hide Unqueried;
    forall c
      ensures c in Unqueried(list, queried) <==> c in list && c.id !in queried
    {
      UnqueriedMembers(list, queried, c);
    }
  }

  /** Nothing listed or named before is lost or replaced, and what is new was named in the answer and is listed. */
  predicate Extends(list: seq<Contact>, named: map<Id, Contact>, contacts: seq<Contact>,
                    list': seq<Contact>, named': map<Id, Contact>) {
    && list <= list' && (forall id | id in named :: id in named' && named'[id] == named[id])
    && (forall id | id in named' && id !in named :: named'[id] in contacts && named'[id] in list')
  }

  lemma ExtendsItself(list: seq<Contact>, named: map<Id, Contact>, contacts: seq<Contact>)
    ensures Extends(list, named, contacts, list, named)
  {
  }

  lemma ExtendsMore(list: seq<Contact>, named: map<Id, Contact>, contacts: seq<Contact>,
                    list': seq<Contact>, named': map<Id, Contact>, c: Contact)
    requires Extends(list, named, contacts, list', named') && c in contacts && c.id !in named'
    ensures Extends(list, named, contacts, list' + [c], named'[c.id := c])
  {
  }

  lemma PendingWasAsked(local: Id, candidates: seq<Contact>, respond: Responder, queries: seq<Contact>,
                        pending: set<Contact>, list: seq<Contact>, named: map<Id, Contact>, q: Contact)
    requires Tracked(local, candidates, respond, queries, pending, list, named) && q in pending
    ensures q in queries
  {
  }

  /** Merge the contacts of one answer: new identifiers are listed, the local one is skipped. */
  method MergeAnswer(local: Id, contacts: seq<Contact>, list: seq<Contact>, named: map<Id, Contact>,
                     ghost candidates: seq<Contact>, ghost respond: Responder, ghost queries: seq<Contact>,
                     ghost pending: set<Contact>, ghost q: Contact)
    returns (list': seq<Contact>, named': map<Id, Contact>)
    requires Tracked(local, candidates, respond, queries, pending, list, named)
    requires q in pending && respond(q) == Some(contacts)
    ensures Tracked(local, candidates, respond, queries, pending - {q}, list', named')
    ensures Extends(list, named, contacts, list', named')
  {
    hide Tracked, Extends;
    PendingWasAsked(local, candidates, respond, queries, pending, list, named, q);
    ExtendsItself(list, named, contacts);
    list', named' := list, named;
    for i := 0 to |contacts|
      invariant Extends(list, named, contacts, list', named')
      invariant Tracked(local, candidates, respond, queries, pending, list', named')
      invariant forall k | 0 <= k < i :: contacts[k].id == local || contacts[k].id in named'
    {
      var nc := contacts[i];
      if nc.id == local {
        continue;
      }
      if nc.id !in named' {
        NameKeepsTracked(local, candidates, respond, queries, pending, list', named', q, nc);
        ExtendsMore(list, named, contacts, list', named', nc);
        list', named' := list' + [nc], named'[nc.id := nc];
      }
    }
    AnswerKeepsTracked(local, candidates, respond, queries, pending, list', named', q);
  }

  lemma {:induction false} SortKeepsTracked(local: Id, target: Id, candidates: seq<Contact>, respond: Responder,
                                            queries: seq<Contact>, list: seq<Contact>, named: map<Id, Contact>)
    requires Tracked(local, candidates, respond, queries, {}, list, named)
    ensures Ascending(SortByDistance(list, target), target) && DistinctIds(SortByDistance(list, target))
    ensures Tracked(local, candidates, respond, queries, {}, SortByDistance(list, target), named)
  {
    SortAscending(list, target);
    SortMultiset(list, target);
    SameMembers(SortByDistance(list, target), list);
    AscendingIsDistinct(SortByDistance(list, target), target);
  }

  /** The candidates form the first list. */
  method Start(local: Id, candidates: seq<Contact>, ghost respond: Responder) returns (named: map<Id, Contact>)
    requires DistinctIds(candidates) && forall c | c in candidates :: c.id != local
    ensures Tracked(local, candidates, respond, [], {}, candidates, named)
  {
    named := map[];
    for i := 0 to |candidates|
      invariant forall id | id in named :: named[id].id == id && named[id] in candidates[..i]
      invariant forall k | 0 <= k < i :: candidates[k].id in named && named[candidates[k].id] == candidates[k]
    {
      named := named[candidates[i].id := candidates[i]];
    }
  }

  lemma NothingAsked(respond: Responder)
    ensures Answered([], respond) == [] && AskedIds([]) == {}
  {
  }

  /** One result: a contact without an answer is struck off; an answering one is added to the routing table. */
  method ReadResult(rt: RoutingTable.Table, res: Contact, list: seq<Contact>, named: map<Id, Contact>,
                    respond: Responder, ghost candidates: seq<Contact>, ghost queries: seq<Contact>,
                    ghost pending: set<Contact>)
    returns (list': seq<Contact>, named': map<Id, Contact>)
    requires rt.Valid() && res in pending
    requires Tracked(rt.localID, candidates, respond, queries, pending, list, named)
    modifies rt`history, rt.buckets
    ensures rt.Valid() && rt.history == old(rt.history) + (if respond(res).Some? then [res] else [])
    ensures Tracked(rt.localID, candidates, respond, queries, pending - {res}, list', named')
  {
    match respond(res)
    case None =>
      FailureKeepsTracked(rt.localID, candidates, respond, queries, pending, list, named, res);
      list', named' := Without(list, res.id), named;
    case Some(contacts) =>
      rt.AddContact(res);
      list', named' := MergeAnswer(rt.localID, contacts, list, named, candidates, respond, queries, pending, res);
  }

  /** The results of one round, read in any order. */
  method ReadResults(rt: RoutingTable.Table, batch: seq<Contact>, list: seq<Contact>, named: map<Id, Contact>,
                     respond: Responder, ghost candidates: seq<Contact>, ghost queries: seq<Contact>)
    returns (list': seq<Contact>, named': map<Id, Contact>, ghost added: seq<Contact>)
    requires rt.Valid() && DistinctIds(batch)
    requires Tracked(rt.localID, candidates, respond, queries, Members(batch), list, named)
    modifies rt`history, rt.buckets
    ensures rt.Valid() && rt.history == old(rt.history) + added
    ensures Tracked(rt.localID, candidates, respond, queries, {}, list', named')
    ensures multiset(added) == multiset(Answered(batch, respond))
  {
    hide *;
    NothingAsked(respond);
    list', named' := list, named;
    var rest := batch;
    added := [];
    while rest != []
      invariant rt.Valid() && rt.history == old(rt.history) + added
      invariant Tracked(rt.localID, candidates, respond, queries, Members(rest), list', named')
      invariant DistinctIds(rest)
      invariant multiset(added) + multiset(Answered(rest, respond)) == multiset(Answered(batch, respond))
      decreases |rest|
    {
      var i: nat :| i < |rest|;
      var res := rest[i];
      RemoveAt(rest, i, respond);
      list', named' := ReadResult(rt, res, list', named', respond, candidates, queries, Members(rest));
      added := added + (if respond(res).Some? then [res] else []);
      rest := rest[..i] + rest[i + 1..];
    }
    assert Members(rest) == {};
  }

  lemma {:induction false} AnsweredConcat(p: seq<Contact>, q: seq<Contact>, respond: Responder)
    ensures Answered(p + q, respond) == Answered(p, respond) + Answered(q, respond)
  {
    if p == [] {
      assert p + q == q;
    } else {
      assert (p + q)[0] == p[0] && (p + q)[1..] == p[1..] + q;
      AnsweredConcat(p[1..], q, respond);
      var head := if respond(p[0]).Some? then [p[0]] else [];
      assert head + Answered(p[1..], respond) + Answered(q, respond)
          == head + (Answered(p[1..], respond) + Answered(q, respond));
    }
  }

  lemma RemoveAt(list: seq<Contact>, i: nat, respond: Responder)
    requires i < |list| && DistinctIds(list)
    ensures var rest := list[..i] + list[i + 1..];
      && DistinctIds(rest) && Members(rest) == Members(list) - {list[i]}
      && multiset(Answered(list, respond)) ==
           multiset(if respond(list[i]).Some? then [list[i]] else []) + multiset(Answered(rest, respond))
  {
    var front, one, back := list[..i], [list[i]], list[i + 1..];
    assert list == front + (one + back);
    AnsweredConcat(front, one + back, respond);
    AnsweredConcat(one, back, respond);
    AnsweredConcat(front, back, respond);
    assert Answered(one[1..], respond) == [];
    RemoveAtMembers(list, i);
  }

  lemma RemoveAtDistinct(list: seq<Contact>, i: nat)
    requires i < |list| && DistinctIds(list)
    ensures DistinctIds(list[..i] + list[i + 1..]) && list[i] !in list[..i] + list[i + 1..]
  {
  }

  lemma RemoveAtMembers(list: seq<Contact>, i: nat)
    requires i < |list| && DistinctIds(list)
    ensures var rest := list[..i] + list[i + 1..];
      DistinctIds(rest) && Members(rest) == Members(list) - {list[i]}
  {
    RemoveAtDistinct(list, i);
    hide DistinctIds;
    var rest := list[..i] + list[i + 1..];
    assert list == list[..i] + [list[i]] + list[i + 1..];
    forall c
      ensures c in rest <==> c in list && c != list[i]
    {
    }
  }

  /** The contacts of a round are marked as asked before their answers are read. */
  method MarkAsked(batch: seq<Contact>, queried: set<Id>, ghost queries: seq<Contact>) returns (queried': set<Id>)
    requires queried == AskedIds(queries) && batch != []
    ensures queried' == AskedIds(queries + batch)
    ensures queried <= queried' && batch[0].id in queried'
  {
    hide *;
    queried' := queried;
    assert queries + batch[..0] == queries;
    for i := 0 to |batch|
      invariant queried' == AskedIds(queries + batch[..i])
      invariant queried <= queried' && (i > 0 ==> batch[0].id in queried')
    {
      AskedIdsSnoc(queries + batch[..i], batch[i]);
      assert queries + batch[..i] + [batch[i]] == queries + batch[..i + 1];
      queried' := queried' + {batch[i].id};
    }
    assert batch[..|batch|] == batch;
  }

  lemma AskedIdsSnoc(queries: seq<Contact>, c: Contact)
    ensures AskedIds(queries + [c]) == AskedIds(queries) + {c.id}
  {
    assert (queries + [c])[..|queries|] == queries;
  }

  /** The first list: what the routing table knows, without the local identifier. */
  method Candidates(rt: RoutingTable.Table, target: Id) returns (candidates: seq<Contact>)
    requires rt.Valid()
    ensures IsClosest(candidates, rt.Contacts(), target, 20)
    ensures DistinctIds(candidates) && forall c | c in candidates :: c.id != rt.localID
  {
    candidates := rt.FindClosestPeers(target, RESULT_SIZE);
    AscendingIsDistinct(candidates, target);
    forall c | c in candidates
      ensures c.id != rt.localID
    {
      RoutingTable.NeverLocal(rt.localID, rt.history, rt.buckets.Length, c);
    }
  }

  /** The lookup loop: it ends for every responder, and what it did is a complete lookup. */
  method IterativeFindNode(rt: RoutingTable.Table, target: Id, respond: Responder)
    returns (closest: seq<Contact>, ghost candidates: seq<Contact>, ghost queries: seq<Contact>,
             ghost added: seq<Contact>)
    requires rt.Valid()
    modifies rt`history, rt.buckets
    ensures rt.Valid() && rt.history == old(rt.history) + added
    ensures IsClosest(candidates, old(rt.Contacts()), target, 20)
    ensures IsLookup(rt.localID, target, candidates, respond, queries, closest)
    ensures multiset(added) == multiset(Answered(queries, respond))
  {
    hide *;
    NothingAsked(respond);
    ghost var all := AllStrings(|target|, 256);
    var closestList := Candidates(rt, target);
    candidates := closestList;
    var closestMap := Start(rt.localID, closestList, respond);
    var queried: set<Id> := {};
    queries, added := [], [];
    while true
      invariant rt.Valid() && rt.history == old(rt.history) + added
      invariant Tracked(rt.localID, candidates, respond, queries, {}, closestList, closestMap)
      invariant queried == AskedIds(queries)
      invariant multiset(added) == multiset(Answered(queries, respond))
      decreases |Unasked(all, queried)|
    {
      SortKeepsTracked(rt.localID, target, candidates, respond, queries, closestList, closestMap);
      closestList := SortByDistance(closestList, target);
      var toQuery := PickUnqueried(closestList, queried);
      PickedAreUnqueried(closestList, queried);
      forall id
        ensures id in queried <==> Asked(queries, id)
      {
        AskedIdsMembers(queries, id);
      }
      if |toQuery| == 0 {
        break;
      }
      AskKeepsTracked(rt.localID, candidates, respond, queries, closestList, closestMap, toQuery);
      var queried' := MarkAsked(toQuery, queried, queries);
      AllStringsComplete(toQuery[0].id, 256);
      FewerLeft(all, queried, queried', toQuery[0].id);
      AnsweredConcat(queries, toQuery, respond);
      queried, queries := queried', queries + toQuery;
      ghost var more;
      closestList, closestMap, more := ReadResults(rt, toQuery, closestList, closestMap, respond, candidates, queries);
      added := added + more;
    }
    DoneIsLookup(rt.localID, target, candidates, respond, queries, closestList, closestMap);
    closest := if |closestList| > RESULT_SIZE then closestList[..RESULT_SIZE] else closestList;
  }

  // ----- The asked identifiers are the least closed set

  ghost function AskedSet(queries: seq<Contact>): iset<Id> { iset id: Id | Asked(queries, id) }

  /** Contacts that a lookup can come across: the candidates, and everything named by one of these contacts. */
  ghost predicate IsWorld(candidates: seq<Contact>, respond: Responder, world: iset<Contact>) {
    && (forall c | c in candidates :: c in world)
    && (forall q: Contact, c: Contact | q in world && Names(respond, q, c) :: c in world)
  }

  ghost predicate NamesId(respond: Responder, q: Contact, id: Id) {
    exists c: Contact :: Names(respond, q, c) && c.id == id
  }

  /** Contacts with one identifier, under whatever addresses, agree on whether they answer and on whom they name. */
  ghost predicate OneAnswerPerId(respond: Responder, world: iset<Contact>) {
    forall a: Contact, b: Contact | a in world && b in world && a.id == b.id ::
      && (respond(a).Some? <==> respond(b).Some?)
      && (forall id: Id :: NamesId(respond, a, id) <==> NamesId(respond, b, id))
  }

  /** The set holds every candidate and everything its members name, the local identifier apart. */
  ghost predicate IsClosed(local: Id, candidates: seq<Contact>, respond: Responder, world: iset<Contact>,
                           ids: iset<Id>) {
    && (forall c | c in candidates :: c.id in ids)
    && (forall q: Contact, c: Contact | q in world && q.id in ids && Names(respond, q, c) && c.id != local ::
          c.id in ids)
  }

  lemma {:induction false} QueriesAreInWorld(local: Id, target: Id, candidates: seq<Contact>, respond: Responder,
                                             queries: seq<Contact>, closest: seq<Contact>, world: iset<Contact>, k: nat)
    requires IsLookup(local, target, candidates, respond, queries, closest)
    requires IsWorld(candidates, respond, world) && k < |queries|
    ensures queries[k] in world
  {
    assert Known(candidates, respond, queries[..k], queries[k]);
    if queries[k] !in candidates {
      var j :| 0 <= j < k && Names(respond, queries[..k][j], queries[k]);
      QueriesAreInWorld(local, target, candidates, respond, queries, closest, world, j);
    }
  }

  /** A lookup asks nothing outside the least closed set: every closed set contains all it asked. */
  lemma {:induction false} LookupAsksNothingElse(local: Id, target: Id, candidates: seq<Contact>, respond: Responder,
                                                 queries: seq<Contact>, closest: seq<Contact>,
                                                 world: iset<Contact>, ids: iset<Id>, k: nat)
    requires IsLookup(local, target, candidates, respond, queries, closest)
    requires IsWorld(candidates, respond, world) && IsClosed(local, candidates, respond, world, ids) && k < |queries|
    ensures queries[k].id in ids
  {
    assert Known(candidates, respond, queries[..k], queries[k]);
    if queries[k] !in candidates {
      var j :| 0 <= j < k && Names(respond, queries[..k][j], queries[k]);
      QueriesAreInWorld(local, target, candidates, respond, queries, closest, world, j);
      LookupAsksNothingElse(local, target, candidates, respond, queries, closest, world, ids, j);
    }
  }

  /**
   * When contacts with one identifier name the same identifiers, the asked identifiers are themselves closed, so they
   * are exactly the least closed set, whatever the order in which results arrived.
   */
  lemma AskedIsClosed(local: Id, target: Id, candidates: seq<Contact>, respond: Responder,
                      queries: seq<Contact>, closest: seq<Contact>, world: iset<Contact>)
    requires IsLookup(local, target, candidates, respond, queries, closest)
    requires IsWorld(candidates, respond, world) && OneAnswerPerId(respond, world)
    ensures IsClosed(local, candidates, respond, world, AskedSet(queries))
  {
    forall q: Contact, c | q in world && Asked(queries, q.id) && Names(respond, q, c) && c.id != local
      ensures Asked(queries, c.id)
    {
      var j :| 0 <= j < |queries| && queries[j].id == q.id;
      QueriesAreInWorld(local, target, candidates, respond, queries, closest, world, j);
      assert NamesId(respond, q, c.id) && NamesId(respond, queries[j], c.id);
      var c' :| Names(respond, queries[j], c') && c'.id == c.id;
      assert queries[j] in queries;
    }
  }

  lemma AskedByBoth(local: Id, target: Id, candidates: seq<Contact>, respond: Responder, p: seq<Contact>,
                    r: seq<Contact>, q: seq<Contact>, s: seq<Contact>, world: iset<Contact>, id: Id)
    requires IsLookup(local, target, candidates, respond, p, r) && IsLookup(local, target, candidates, respond, q, s)
    requires IsWorld(candidates, respond, world) && OneAnswerPerId(respond, world)
    ensures Asked(p, id) ==> Asked(q, id)
  {
    AskedIsClosed(local, target, candidates, respond, q, s, world);
    if Asked(p, id) {
      var j :| 0 <= j < |p| && p[j].id == id;
      LookupAsksNothingElse(local, target, candidates, respond, p, r, world, AskedSet(q), j);
    }
  }

  /** Every contact that answered one lookup has a contact with its identifier that answered the other. */
  lemma AnsweredByBoth(local: Id, target: Id, candidates: seq<Contact>, respond: Responder, p: seq<Contact>,
                       r: seq<Contact>, q: seq<Contact>, s: seq<Contact>, world: iset<Contact>, id: Id)
    requires IsLookup(local, target, candidates, respond, p, r) && IsLookup(local, target, candidates, respond, q, s)
    requires IsWorld(candidates, respond, world) && OneAnswerPerId(respond, world)
    ensures Asked(Answered(p, respond), id) ==> Asked(Answered(q, respond), id)
  {
    hide IsLookup, IsWorld, OneAnswerPerId, Answered;
    AskedByBoth(local, target, candidates, respond, p, r, q, s, world, id);
    AnsweredMembers(p, respond);
    AnsweredMembers(q, respond);
    var a, b := Answered(p, respond), Answered(q, respond);
    if Asked(a, id) {
      var i :| 0 <= i < |a| && a[i].id == id;
      assert a[i] in a;
      var j :| 0 <= j < |p| && p[j] == a[i];
      assert Asked(p, id);
      var k :| 0 <= k < |q| && q[k].id == id;
      QueriesAreInWorld(local, target, candidates, respond, p, r, world, j);
      QueriesAreInWorld(local, target, candidates, respond, q, s, world, k);
      BothAnswer(respond, world, p[j], q[k]);
      assert q[k] in b;
    }
  }

  lemma BothAnswer(respond: Responder, world: iset<Contact>, a: Contact, b: Contact)
    requires OneAnswerPerId(respond, world) && a in world && b in world && a.id == b.id
    ensures respond(a).Some? <==> respond(b).Some?
  {
  }

  lemma {:induction false} AskedIdsCount(cs: seq<Contact>)
    requires DistinctIds(cs)
    ensures |AskedIds(cs)| == |cs|
    decreases |cs|
  {
    if cs != [] {
      var front, last := cs[..|cs| - 1], cs[|cs| - 1];
      assert cs == front + [last];
      AskedIdsCount(front);
      AskedIdsSnoc(front, last);
      AskedIdsMembers(front, last.id);
    }
  }

  /** The contact of the list with this identifier. */
  function WithId(cs: seq<Contact>, id: Id): (c: Contact)
    requires Asked(cs, id)
    ensures c in cs && c.id == id
  {
    if cs[0].id == id then cs[0]
    else
      assert Asked(cs[1..], id) by {
        var j :| 0 <= j < |cs| && cs[j].id == id;
        assert cs[1..][j - 1] == cs[j];
      }
      WithId(cs[1..], id)
  }

  /** The same identifiers, with the contacts that another list has for them. */
  function Renamed(s: seq<Contact>, all: seq<Contact>): (t: seq<Contact>)
    requires forall i | 0 <= i < |s| :: Asked(all, s[i].id)
    ensures |t| == |s| && forall i | 0 <= i < |s| :: t[i] in all && t[i].id == s[i].id
  {
    seq(|s|, i requires 0 <= i < |s| => WithId(all, s[i].id))
  }

  lemma SameSize(a: seq<Contact>, b: seq<Contact>)
    requires DistinctIds(a) && DistinctIds(b) && forall id: Id :: Asked(a, id) <==> Asked(b, id)
    ensures |a| == |b|
  {
    AskedIdsCount(a);
    AskedIdsCount(b);
    forall id: Id
      ensures id in AskedIds(a) <==> id in AskedIds(b)
    {
      AskedIdsMembers(a, id);
      AskedIdsMembers(b, id);
    }
    assert AskedIds(a) == AskedIds(b);
  }

  /** The nearest of one list, renamed, are the nearest of another list with the same identifiers. */
  lemma RenamedIsClosest(s: seq<Contact>, a: seq<Contact>, b: seq<Contact>, target: Id, count: nat)
    requires IsClosest(s, b, target, count) && DistinctIds(a) && DistinctIds(b)
    requires forall id: Id :: Asked(a, id) <==> Asked(b, id)
    ensures forall i | 0 <= i < |s| :: Asked(a, s[i].id)
    ensures IsClosest(Renamed(s, a), a, target, count)
  {
    SameSize(a, b);
    hide Nearer;
    forall i | 0 <= i < |s|
      ensures Asked(a, s[i].id)
    {
      assert s[i] in b;
      assert Asked(b, s[i].id);
    }
    var t := Renamed(s, a);
    forall c, d | c in a && c !in t && d in t
      ensures Nearer(d.id, c.id, target)
    {
      var j :| 0 <= j < |t| && t[j] == d;
      assert Asked(a, c.id);
      var c' := WithId(b, c.id);
      assert c' !in s;
      assert s[j] in s;
    }
  }

  /**
   * Two lookups of the same network from the same candidates ask the same identifiers and return the same
   * identifiers, nearest first.
   */
  lemma LookupIsDeterministic(local: Id, target: Id, candidates: seq<Contact>, respond: Responder, p: seq<Contact>,
                              r: seq<Contact>, q: seq<Contact>, s: seq<Contact>, world: iset<Contact>)
    requires IsLookup(local, target, candidates, respond, p, r) && IsLookup(local, target, candidates, respond, q, s)
    requires IsWorld(candidates, respond, world) && OneAnswerPerId(respond, world)
    ensures forall id: Id :: Asked(p, id) <==> Asked(q, id)
    ensures RoutingTable.Ids(r) == RoutingTable.Ids(s)
  {
    var a, b := Answered(p, respond), Answered(q, respond);
    forall id: Id
      ensures Asked(p, id) <==> Asked(q, id)
      ensures Asked(a, id) <==> Asked(b, id)
    {
      AskedByBoth(local, target, candidates, respond, p, r, q, s, world, id);
      AskedByBoth(local, target, candidates, respond, q, s, p, r, world, id);
      AnsweredByBoth(local, target, candidates, respond, p, r, q, s, world, id);
      AnsweredByBoth(local, target, candidates, respond, q, s, p, r, world, id);
    }
    AnsweredDistinct(p, respond);
    AnsweredDistinct(q, respond);
    assert IsClosest(r, a, target, RESULT_SIZE) && IsClosest(s, b, target, RESULT_SIZE);
    hide IsLookup, Asked, IsClosest, Answered, IsWorld, OneAnswerPerId;
    RenamedIsClosest(s, a, b, target, RESULT_SIZE);
    ClosestIsUnique(r, Renamed(s, a), a, target, RESULT_SIZE);
  }

  // ----- When contacts with one identifier answer differently

  /** X names Z at one address, Y names Z at another; only the first of these answers with W. */
  function SplitAnswers(x: Contact, y: Contact, z1: Contact, z2: Contact, w: Contact): Responder {
    (c: Contact) =>
      if c == x then Some([z1]) else if c == y then Some([z2]) else if c == z1 then Some([w]) else Some([])
  }

  predicate SplitNetwork(local: Id, x: Contact, y: Contact, z1: Contact, z2: Contact, w: Contact) {
    DistinctIds([Contact(local, []), x, y, z1, w]) && z1.id == z2.id && z1 != z2
  }

  lemma FirstNames(x: Contact, y: Contact, z1: Contact, z2: Contact, w: Contact)
    requires z1.id == z2.id
    ensures var respond, p := SplitAnswers(x, y, z1, z2, w), [x, y, z1, w];
      forall q, c | q in p && Names(respond, q, c) :: Asked(p, c.id)
  {
    var p := [x, y, z1, w];
    assert p[2].id == z1.id && p[3].id == w.id;
    assert Asked(p, z1.id) && Asked(p, w.id);
  }

  lemma FirstKnown(x: Contact, y: Contact, z1: Contact, z2: Contact, w: Contact)
    requires z1 != x && z1 != y
    ensures var respond, p := SplitAnswers(x, y, z1, z2, w), [x, y, z1, w];
      forall k | 0 <= k < |p| :: Known([x, y], respond, p[..k], p[k])
  {
    var respond, p := SplitAnswers(x, y, z1, z2, w), [x, y, z1, w];
    assert p[..2][0] == x && Names(respond, x, z1);
    assert p[..3][2] == z1 && Names(respond, z1, w);
  }

  lemma SecondNames(x: Contact, y: Contact, z1: Contact, z2: Contact, w: Contact)
    requires z1.id == z2.id && z1 != z2 && z2 != x && z2 != y && z1 != x && z1 != y
    ensures var respond, p := SplitAnswers(x, y, z1, z2, w), [x, y, z2];
      forall q, c | q in p && Names(respond, q, c) :: Asked(p, c.id)
  {
    var p := [x, y, z2];
    assert p[2].id == z1.id;
    assert Asked(p, z1.id);
  }

  lemma SecondKnown(x: Contact, y: Contact, z1: Contact, z2: Contact, w: Contact)
    requires y != x
    ensures var respond, p := SplitAnswers(x, y, z1, z2, w), [x, y, z2];
      forall k | 0 <= k < |p| :: Known([x, y], respond, p[..k], p[k])
  {
    var respond, p := SplitAnswers(x, y, z1, z2, w), [x, y, z2];
    assert p[..2][1] == y && Names(respond, y, z2);
  }

  lemma CandidatesAsked(x: Contact, y: Contact, more: seq<Contact>)
    ensures forall c | c in [x, y] :: Asked([x, y] + more, c.id)
  {
    assert ([x, y] + more)[0] == x && ([x, y] + more)[1] == y;
  }

  lemma FirstQueries(local: Contact, x: Contact, y: Contact, z: Contact, w: Contact)
    requires DistinctIds([local, x, y, z, w])
    ensures var p := [x, y, z, w];
      DistinctIds(p) && (forall k | 0 <= k < |p| :: p[k].id != local.id) && z != x && z != y
  {
    var p, all := [x, y, z, w], [local, x, y, z, w];
    DistinctFive(local, x, y, z, w);
    assert forall k | 0 <= k < 4 :: p[k] == all[k + 1];
  }

  /** Reading X's answer before Y's, W is asked. */
  lemma FirstAddressWins(local: Id, target: Id, x: Contact, y: Contact, z1: Contact, z2: Contact, w: Contact)
    returns (closest: seq<Contact>)
    requires SplitNetwork(local, x, y, z1, z2, w)
    ensures IsLookup(local, target, [x, y], SplitAnswers(x, y, z1, z2, w), [x, y, z1, w], closest)
  {
    FirstQueries(Contact(local, []), x, y, z1, w);
    hide IsClosest, Answered, SplitAnswers, Known, Names, Asked, DistinctIds;
    FirstNames(x, y, z1, z2, w);
    FirstKnown(x, y, z1, z2, w);
    CandidatesAsked(x, y, [z1, w]);
    assert [x, y] + [z1, w] == [x, y, z1, w];
    closest := ClosestOf([x, y, z1, w], SplitAnswers(x, y, z1, z2, w), target);
  }

  /** Reading Y's answer first, it is not. */
  lemma SecondAddressWins(local: Id, target: Id, x: Contact, y: Contact, z1: Contact, z2: Contact, w: Contact)
    returns (closest: seq<Contact>)
    requires SplitNetwork(local, x, y, z1, z2, w)
    ensures IsLookup(local, target, [x, y], SplitAnswers(x, y, z1, z2, w), [x, y, z2], closest)
  {
    DistinctFive(Contact(local, []), x, y, z1, w);
    SecondNames(x, y, z1, z2, w);
    SecondKnown(x, y, z1, z2, w);
    CandidatesAsked(x, y, [z2]);
    assert [x, y] + [z2] == [x, y, z2];
    hide IsClosest, Answered, SplitAnswers, Known, Names, Asked;
    closest := ClosestOf([x, y, z2], SplitAnswers(x, y, z1, z2, w), target);
  }

  lemma DistinctFive(a: Contact, b: Contact, c: Contact, d: Contact, e: Contact)
    requires DistinctIds([a, b, c, d, e])
    ensures a.id != b.id && a.id != c.id && a.id != d.id && a.id != e.id && b.id != c.id
    ensures b.id != d.id && b.id != e.id && c.id != d.id && c.id != e.id && d.id != e.id
  {
    var s := [a, b, c, d, e];
    assert s[0].id != s[1].id && s[0].id != s[2].id && s[0].id != s[3].id && s[0].id != s[4].id && s[1].id != s[2].id;
    assert s[1].id != s[3].id && s[1].id != s[4].id && s[2].id != s[3].id && s[2].id != s[4].id && s[3].id != s[4].id;
  }

  lemma ClosestOf(queries: seq<Contact>, respond: Responder, target: Id) returns (closest: seq<Contact>)
    requires DistinctIds(queries)
    ensures IsClosest(closest, Answered(queries, respond), target, RESULT_SIZE)
  {
    var all := Answered(queries, respond);
    AnsweredDistinct(queries, respond);
    SortAndCutIsClosest(all, target, RESULT_SIZE);
    closest := SortByDistance(all, target)[..Min(RESULT_SIZE, |all|)];
  }

  /** Then the order in which results arrive decides who is asked: LookupIsDeterministic needs some such condition. */
  lemma AnswersMustAgree(local: Id, target: Id, x: Contact, y: Contact, z1: Contact, z2: Contact, w: Contact)
    returns (r: seq<Contact>, s: seq<Contact>)
    requires SplitNetwork(local, x, y, z1, z2, w)
    ensures var respond := SplitAnswers(x, y, z1, z2, w);
      && IsLookup(local, target, [x, y], respond, [x, y, z1, w], r)
      && IsLookup(local, target, [x, y], respond, [x, y, z2], s)
      && Asked([x, y, z1, w], w.id) && !Asked([x, y, z2], w.id)
  {
    r := FirstAddressWins(local, target, x, y, z1, z2, w);
    s := SecondAddressWins(local, target, x, y, z1, z2, w);
    DistinctFive(Contact(local, []), x, y, z1, w);
    assert [x, y, z1, w][3] == w;
  }
}
