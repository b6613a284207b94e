/** Concurrent requests against one store. The store's lock is held for a
    whole read-modify-write cycle, so requests issued together take effect
    one after another, in some order that is not promised. The lemmas here
    hold for every such order. */
module Schedule {
  import opened Outcomes
  import opened Dates
  import opened Tasks
  import opened Store

  datatype Request =
    | AddRequest(title: string, dueDate: string, createdAt: string)
    | DeleteRequest(title: string)
    | ListRequest(today: Date)

  /** The file after one request has run to completion. */
  function Apply(f: StoredFile, q: Request): StoredFile
  {
    match q
    case AddRequest(title, dueDate, createdAt) => AddEffect(f, title, dueDate, createdAt).file
    case DeleteRequest(title) => DeleteEffect(f, title).file
    case ListRequest(today) => ListEffect(f, today).file
  }

  /** The file after the requests have run in the given order, first to last. */
  function Run(f: StoredFile, order: seq<Request>): StoredFile
    decreases |order|
  {
    if order == [] then f else Run(Apply(f, order[0]), order[1..])
  }

  lemma {:induction false} RunAppend(f: StoredFile, a: seq<Request>, b: seq<Request>)
    ensures Run(f, a + b) == Run(Run(f, a), b)
    decreases |a|
  {
    if a == [] {
      assert a + b == b;
    } else {
      assert (a + b)[1..] == a[1..] + b;
      RunAppend(Apply(f, a[0]), a[1..], b);
    }
  }

  /** Adding and deleting never create a missing storage file: they report it
      missing and leave it so, and listing never writes. */
  lemma {:induction false} NothingCreatesMissingFile(order: seq<Request>)
    ensures Run(Absent, order) == Absent
  {
    if order != [] {
      NothingCreatesMissingFile(order[1..]);
    }
  }

  predicate AllAdds(qs: seq<Request>)
  {
    forall i :: 0 <= i < |qs| ==> qs[i].AddRequest?
  }

  predicate AllDeletes(qs: seq<Request>)
  {
    forall i :: 0 <= i < |qs| ==> qs[i].DeleteRequest?
  }

  /** The records that the add requests create, in request order. */
  function Added(qs: seq<Request>): seq<TaskRecord>
  {
    if qs == [] then []
    else
      var rest := Added(qs[1..]);
      match qs[0]
      case AddRequest(title, dueDate, createdAt) => [TaskRecord(title, dueDate, createdAt)] + rest
      case _ => rest
  }

  /** Each record is created as many times as its add request occurs. */
  lemma {:induction false} AddedCount(qs: seq<Request>, r: TaskRecord)
    ensures multiset(Added(qs))[r] == multiset(qs)[AddRequest(r.title, r.dueDate, r.createdAt)]
  {
    if qs != [] {
      AddedCount(qs[1..], r);
      assert qs == [qs[0]] + qs[1..];
    }
  }

  /** Reordering the requests reorders the records they create and no more. */
  lemma AddedPermutation(a: seq<Request>, b: seq<Request>)
    requires multiset(a) == multiset(b)
    ensures multiset(Added(a)) == multiset(Added(b))
  {
    forall r: TaskRecord ensures multiset(Added(a))[r] == multiset(Added(b))[r] {
      AddedCount(a, r);
      AddedCount(b, r);
    }
  }

  /** Adds run one after another append their records in the order they ran. */
  lemma {:induction false} AddsAppendInOrder(f: StoredFile, order: seq<Request>)
    requires AllAdds(order) && ReadForUpdate(f).Ok?
    ensures ReadForUpdate(Run(f, order)) == Ok(ReadForUpdate(f).value + Added(order))
    decreases |order|
  {
    var s := ReadForUpdate(f).value;
    if order == [] {
      assert s + [] == s;
    } else {
      var q := order[0];
      var g := Apply(f, q);
      assert ReadForUpdate(g) == Ok(s + [TaskRecord(q.title, q.dueDate, q.createdAt)]);
      AddsAppendInOrder(g, order[1..]);
      assert Added(order) == [TaskRecord(q.title, q.dueDate, q.createdAt)] + Added(order[1..]);
      assert s + Added(order) == s + [TaskRecord(q.title, q.dueDate, q.createdAt)] + Added(order[1..]);
    }
  }

  function TitleSet(tasks: seq<TaskRecord>): set<string>
  {
    set t | t in tasks :: t.title
  }

  function RequestTitles(qs: seq<Request>): set<string>
    requires forall i :: 0 <= i < |qs| ==> !qs[i].ListRequest?
  {
    set q | q in qs :: q.title
  }

  /** Concurrent adds lose nothing: whatever order the lock lets them through
      in, every add's record is stored once beside the records that were
      there, so the titles afterwards are the old titles and the new ones. */
  lemma ConcurrentAddsKeepAll(f: StoredFile, requests: seq<Request>, order: seq<Request>)
    requires AllAdds(requests) && multiset(order) == multiset(requests)
    requires ReadForUpdate(f).Ok?
    ensures var s := ReadForUpdate(f).value;
      && ReadForUpdate(Run(f, order)).Ok?
      && var t := ReadForUpdate(Run(f, order)).value;
      && |t| == |s| + |requests|
      && multiset(t) == multiset(s) + multiset(Added(requests))
      && TitleSet(t) == TitleSet(s) + RequestTitles(requests)
  {
    var s := ReadForUpdate(f).value;
    forall i | 0 <= i < |order| ensures order[i].AddRequest? {
      assert order[i] in multiset(requests);
    }
    AddsAppendInOrder(f, order);
    AddedPermutation(order, requests);
    var t := s + Added(order);
    assert |multiset(t)| == |s| + |multiset(Added(requests))|;
    AddedSize(requests);
    forall title | title in TitleSet(t) ensures title in TitleSet(s) + RequestTitles(requests) {
      var r :| r in t && r.title == title;
      assert r in multiset(s) + multiset(Added(requests));
      if r !in s {
        AddedMember(requests, r);
      }
    }
    forall title | title in TitleSet(s) + RequestTitles(requests) ensures title in TitleSet(t) {
      if title !in TitleSet(s) {
        var q :| q in requests && q.title == title;
        var r := TaskRecord(q.title, q.dueDate, q.createdAt);
        AddedHas(requests, q);
        assert r in multiset(t);
      }
    }
  }

  lemma {:induction false} AddedSize(qs: seq<Request>)
    requires AllAdds(qs)
    ensures |Added(qs)| == |qs|
  {
    if qs != [] {
      AddedSize(qs[1..]);
    }
  }

  lemma {:induction false} AddedMember(qs: seq<Request>, r: TaskRecord)
    requires r in Added(qs)
    ensures AddRequest(r.title, r.dueDate, r.createdAt) in qs
  {
    if qs[0] != AddRequest(r.title, r.dueDate, r.createdAt) {
      AddedMember(qs[1..], r);
    }
  }

  lemma {:induction false} AddedHas(qs: seq<Request>, q: Request)
    requires q in qs && q.AddRequest?
    ensures TaskRecord(q.title, q.dueDate, q.createdAt) in Added(qs)
  {
    if qs[0] != q {
      AddedHas(qs[1..], q);
    }
  }

  /** Deletes run one after another drop every record whose title any of
      them names. */
  lemma {:induction false} DeletesFilter(f: StoredFile, order: seq<Request>)
    requires AllDeletes(order) && ReadForUpdate(f).Ok?
    ensures ReadForUpdate(Run(f, order)) == Ok(RemoveTitles(ReadForUpdate(f).value, RequestTitles(order)))
    decreases |order|
  {
    var s := ReadForUpdate(f).value;
    if order == [] {
      RemoveNoTitles(s);
      assert RequestTitles(order) == {};
    } else {
      var x := order[0].title;
      var g := Apply(f, order[0]);
      DeleteReadsFiltered(f, x);
      DeletesFilter(g, order[1..]);
      RemoveTitleThenTitles(s, x, RequestTitles(order[1..]));
      RequestTitlesCons(order);
    }
  }

  lemma RequestTitlesCons(qs: seq<Request>)
    requires qs != [] && forall i :: 0 <= i < |qs| ==> !qs[i].ListRequest?
    ensures RequestTitles(qs) == {qs[0].title} + RequestTitles(qs[1..])
  {
  }

  /** Concurrent deletes give the same records whatever order they run in:
      exactly those whose title none of them names, in stored order. */
  lemma ConcurrentDeletes(f: StoredFile, requests: seq<Request>, order: seq<Request>)
    requires AllDeletes(requests) && multiset(order) == multiset(requests)
    requires ReadForUpdate(f).Ok?
    ensures ReadForUpdate(Run(f, order)) == Ok(RemoveTitles(ReadForUpdate(f).value, RequestTitles(requests)))
  {
    forall i | 0 <= i < |order| ensures order[i].DeleteRequest? {
      assert order[i] in multiset(requests);
    }
    forall q | q in order ensures q in requests {
      assert q in multiset(requests);
    }
    forall q | q in requests ensures q in order {
      assert q in multiset(order);
    }
    assert RequestTitles(order) == RequestTitles(requests);
    DeletesFilter(f, order);
  }

  /** The add requests that create the given records. */
  function AddsOf(rs: seq<TaskRecord>): (qs: seq<Request>)
    ensures |qs| == |rs| && AllAdds(qs)
  {
    if rs == [] then [] else [AddRequest(rs[0].title, rs[0].dueDate, rs[0].createdAt)] + AddsOf(rs[1..])
  }

  lemma {:induction false} AddedAddsOf(rs: seq<TaskRecord>)
    ensures Added(AddsOf(rs)) == rs
  {
    if rs != [] {
      AddedAddsOf(rs[1..]);
      assert AddsOf(rs)[1..] == AddsOf(rs[1..]);
    }
  }

  /** Adding the records one by one to an empty store file stores exactly
      those records, in that order. */
  lemma AddsToBlank(rs: seq<TaskRecord>)
    ensures ReadForUpdate(Run(Blank, AddsOf(rs))) == Ok(rs)
  {
    AddsAppendInOrder(Blank, AddsOf(rs));
    AddedAddsOf(rs);
    assert ReadForUpdate(Blank) == Ok([]);
    assert [] + rs == rs;
  }

  /** Adding one task to an empty store file stores exactly that task. */
  lemma AddOneScenario(a: TaskRecord)
    ensures LoadTasks(Run(Blank, AddsOf([a]))) == Ok([a])
  {
    AddsToBlank([a]);
  }

  /** Two adds then deleting the first title: the second task remains alone. */
  lemma DeleteOneScenario(a: TaskRecord, b: TaskRecord)
    requires a.title != b.title
    ensures LoadTasks(Run(Blank, AddsOf([a, b]) + [DeleteRequest(a.title)])) == Ok([b])
  {
    var adds, del := AddsOf([a, b]), [DeleteRequest(a.title)];
    RunAppend(Blank, adds, del);
    AddsToBlank([a, b]);
    DeletesFilter(Run(Blank, adds), del);
    DeleteTitles(del);
    assert [a, b][1..] == [b] && [b][1..] == [];
    assert RemoveTitles([b], {a.title}) == [b];
  }

  /** Three concurrent adds with distinct titles: in every order, three
      records with exactly those titles. */
  lemma BulkAddScenario(a: TaskRecord, b: TaskRecord, c: TaskRecord, order: seq<Request>)
    requires a.title != b.title && b.title != c.title && a.title != c.title
    requires multiset(order) == multiset(AddsOf([a, b, c]))
    ensures var t := LoadTasks(Run(Blank, order));
      t.Ok? && |t.value| == 3 && TitleSet(t.value) == {a.title, b.title, c.title}
  {
    var requests := AddsOf([a, b, c]);
    assert ReadForUpdate(Blank) == Ok([]);
    ConcurrentAddsKeepAll(Blank, requests, order);
    assert TitleSet([]) == {};
    assert [a, b, c][1..] == [b, c] && [b, c][1..] == [c] && [c][1..] == [];
    assert requests == [AddRequest(a.title, a.dueDate, a.createdAt)] + AddsOf([b, c]);
    assert AddsOf([b, c]) == [AddRequest(b.title, b.dueDate, b.createdAt)] + AddsOf([c]);
    assert AddsOf([c]) == [AddRequest(c.title, c.dueDate, c.createdAt)];
    assert RequestTitles(requests) == {a.title, b.title, c.title};
  }

  /** Three adds, then deleting the first and the last title concurrently:
      in either order only the middle task remains. */
  lemma DeleteManyScenario(a: TaskRecord, b: TaskRecord, c: TaskRecord, order: seq<Request>)
    requires a.title != b.title && b.title != c.title
    requires multiset(order) == multiset([DeleteRequest(a.title), DeleteRequest(c.title)])
    ensures LoadTasks(Run(Blank, AddsOf([a, b, c]) + order)) == Ok([b])
  {
    RunAppend(Blank, AddsOf([a, b, c]), order);
    AddsToBlank([a, b, c]);
    DeleteOuterFromThree(Run(Blank, AddsOf([a, b, c])), a, b, c, order);
  }

  lemma DeleteOuterFromThree(g: StoredFile, a: TaskRecord, b: TaskRecord, c: TaskRecord, order: seq<Request>)
    requires a.title != b.title && b.title != c.title
    requires multiset(order) == multiset([DeleteRequest(a.title), DeleteRequest(c.title)])
    requires ReadForUpdate(g) == Ok([a, b, c])
    ensures LoadTasks(Run(g, order)) == Ok([b])
  {
    var requests := [DeleteRequest(a.title), DeleteRequest(c.title)];
    ConcurrentDeletes(g, requests, order);
    DeleteTitles(requests);
    KeepMiddle(a, b, c, {a.title, c.title});
  }

  /** The titles of one or two delete requests. */
  lemma DeleteTitles(del: seq<Request>)
    requires |del| <= 2 && AllDeletes(del)
    ensures |del| == 1 ==> RequestTitles(del) == {del[0].title}
    ensures |del| == 2 ==> RequestTitles(del) == {del[0].title, del[1].title}
  {
    if |del| == 2 {
      assert del == [del[0], del[1]];
    }
  }

  lemma KeepMiddle(a: TaskRecord, b: TaskRecord, c: TaskRecord, titles: set<string>)
    requires a.title in titles && b.title !in titles && c.title in titles
    ensures RemoveTitles([a, b, c], titles) == [b]
  {
    assert [a, b, c][1..] == [b, c] && [b, c][1..] == [c] && [c][1..] == [];
    assert RemoveTitles([c], titles) == [];
    assert RemoveTitles([b, c], titles) == [b];
  }

  /** Deleting the middle of three tasks keeps the other two in their order. */
  lemma OrderPreservedScenario(a: TaskRecord, b: TaskRecord, c: TaskRecord)
    requires a.title != b.title && b.title != c.title
    ensures LoadTasks(Run(Blank, AddsOf([a, b, c]) + [DeleteRequest(b.title)])) == Ok([a, c])
  {
    RunAppend(Blank, AddsOf([a, b, c]), [DeleteRequest(b.title)]);
    AddsToBlank([a, b, c]);
    DeleteMiddleFromThree(Run(Blank, AddsOf([a, b, c])), a, b, c);
  }

  lemma DeleteMiddleFromThree(g: StoredFile, a: TaskRecord, b: TaskRecord, c: TaskRecord)
    requires a.title != b.title && b.title != c.title
    requires ReadForUpdate(g) == Ok([a, b, c])
    ensures LoadTasks(Run(g, [DeleteRequest(b.title)])) == Ok([a, c])
  {
    var del := [DeleteRequest(b.title)];
    DeletesFilter(g, del);
    DeleteTitles(del);
    KeepOuter(a, b, c, {b.title});
  }

  lemma KeepOuter(a: TaskRecord, b: TaskRecord, c: TaskRecord, titles: set<string>)
    requires a.title !in titles && b.title in titles && c.title !in titles
    ensures RemoveTitles([a, b, c], titles) == [a, c]
  {
    assert [a, b, c][1..] == [b, c] && [b, c][1..] == [c] && [c][1..] == [];
    assert RemoveTitles([c], titles) == [c];
    assert RemoveTitles([b, c], titles) == [c];
    assert RemoveTitles([a, b, c], titles) == [a] + [c] == [a, c];
  }
}
