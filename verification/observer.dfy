/** Achievement notifications: two kinds of printer observe an engine that
    broadcasts achievements to its current subscribers. */
module Observer {
  import opened Wrappers

  /** An achievement as the engine emits it. The printers only ever read its
      title; `text` stands for the rest of the record. */
  datatype Achievement = Achievement(title: string, text: string)

  /** The state of one observer object. */
  datatype Printer =
    | ShortPrinter(titles: set<string>)
    | FullPrinter(achievements: seq<Achievement>)

  /** Observers are objects compared by identity; an id stands for one. */
  type ObserverId = nat

  /** The states of all observer objects alive in the program. */
  type Heap = map<ObserverId, Printer>

  datatype Engine = Engine(observers: set<ObserverId>)

  datatype EngineError = KeyError

  predicate NoDuplicates<T(==)>(s: seq<T>)
  {
    forall i, j :: 0 <= i < j < |s| ==> s[i] != s[j]
  }

  // ---------------------------------------------------------------------
  // Printers
  // ---------------------------------------------------------------------

  /** The short printer records the title; nothing else is added. */
  function ShortUpdate(titles: set<string>, a: Achievement): (r: set<string>)
    ensures a.title in r && titles <= r
    ensures forall t :: t in r && t !in titles ==> t == a.title
  {
    titles + {a.title}
  }

  /** The full printer appends the achievement unless it already holds an
      equal one; the old list is always a prefix of the new. */
  function FullUpdate(achievements: seq<Achievement>, a: Achievement): (r: seq<Achievement>)
    ensures a in r
    ensures a in achievements ==> r == achievements
    ensures |achievements| <= |r| <= |achievements| + 1 && r[..|achievements|] == achievements
    ensures forall x :: x in r <==> x in achievements || x == a
    ensures NoDuplicates(achievements) ==> NoDuplicates(r)
  {
    if a in achievements then achievements else achievements + [a]
  }

  function Update(p: Printer, a: Achievement): (r: Printer)
    ensures r.ShortPrinter? <==> p.ShortPrinter?
  {
    match p
    case ShortPrinter(titles) => ShortPrinter(ShortUpdate(titles, a))
    case FullPrinter(achievements) => FullPrinter(FullUpdate(achievements, a))
  }

  /** Receiving the same achievement twice is the same as receiving it once,
      for both kinds of printer. */
  lemma UpdateIdempotent(p: Printer, a: Achievement)
    ensures Update(Update(p, a), a) == Update(p, a)
  {
  }

  /** The titles a short printer holds after receiving `arrivals`, oldest
      first, from its initial empty state. */
  function ShortLog(arrivals: seq<Achievement>): (r: set<string>)
  {
    if arrivals == [] then {}
    else ShortUpdate(ShortLog(arrivals[..|arrivals| - 1]), arrivals[|arrivals| - 1])
  }

  /** The list a full printer holds after receiving `arrivals`, oldest first,
      from its initial empty state. */
  function FullLog(arrivals: seq<Achievement>): (r: seq<Achievement>)
  {
    if arrivals == [] then []
    else FullUpdate(FullLog(arrivals[..|arrivals| - 1]), arrivals[|arrivals| - 1])
  }

  /** The position at which `x` first occurs in `s`. */
  function FirstIndex<T(==)>(s: seq<T>, x: T): (i: nat)
    requires x in s
    ensures i < |s| && s[i] == x
    ensures forall j :: 0 <= j < i ==> s[j] != x
  {
    if s[0] == x then 0 else 1 + FirstIndex(s[1..], x)
  }

  lemma FirstIndexInPrefix<T>(s: seq<T>, t: seq<T>, x: T)
    requires x in s
    ensures FirstIndex(s + t, x) == FirstIndex(s, x)
  {
    assert (s + t)[FirstIndex(s, x)] == x;
  }

  /** A short printer holds exactly the titles that arrived. */
  lemma {:induction false} ShortCollectsTitles(arrivals: seq<Achievement>, t: string)
    ensures t in ShortLog(arrivals) <==> exists i :: 0 <= i < |arrivals| && arrivals[i].title == t
  {
    if arrivals != [] {
      var pre := arrivals[..|arrivals| - 1];
      ShortCollectsTitles(pre, t);
      if exists i :: 0 <= i < |pre| && pre[i].title == t {
        var i :| 0 <= i < |pre| && pre[i].title == t;
        assert arrivals[i] == pre[i];
      }
      if exists i :: 0 <= i < |arrivals| && arrivals[i].title == t {
        var i :| 0 <= i < |arrivals| && arrivals[i].title == t;
        if i < |pre| {
          assert pre[i] == arrivals[i];
        }
      }
    }
  }

  /** A full printer holds every distinct achievement that arrived, and each
      only once. */
  lemma {:induction false} FullCollectsOnce(arrivals: seq<Achievement>)
    ensures NoDuplicates(FullLog(arrivals))
    ensures forall x :: x in FullLog(arrivals) <==> x in arrivals
  {
    if arrivals != [] {
      var pre := arrivals[..|arrivals| - 1];
      assert arrivals == pre + [arrivals[|arrivals| - 1]];
      FullCollectsOnce(pre);
    }
  }

  /** Any two entries of the full printer's list are in the order in which
      they first arrived. */
  lemma {:induction false} FullOrderAt(arrivals: seq<Achievement>, i: nat, j: nat)
    requires i < j < |FullLog(arrivals)|
    ensures FullLog(arrivals)[i] in arrivals && FullLog(arrivals)[j] in arrivals
    ensures FirstIndex(arrivals, FullLog(arrivals)[i]) < FirstIndex(arrivals, FullLog(arrivals)[j])
  {
    FullCollectsOnce(arrivals);
    var n := |arrivals|;
    var pre, a := arrivals[..n - 1], arrivals[n - 1];
    assert arrivals == pre + [a];
    FullCollectsOnce(pre);
    var r0 := FullLog(pre);
    FirstIndexInPrefix(pre, [a], r0[i]);
    if j < |r0| {
      FullOrderAt(pre, i, j);
      FirstIndexInPrefix(pre, [a], r0[j]);
    } else {
      FirstArrivalIsLast(pre, a);
    }
  }

  /** The full printer's list keeps first-arrival order. With
      `FullCollectsOnce` this determines the list. */
  lemma FullKeepsFirstArrivalOrder(arrivals: seq<Achievement>)
    ensures forall x :: x in FullLog(arrivals) ==> x in arrivals
    ensures var r := FullLog(arrivals);
      forall i, j :: 0 <= i < j < |r| ==> FirstIndex(arrivals, r[i]) < FirstIndex(arrivals, r[j])
  {
    FullCollectsOnce(arrivals);
    forall i, j | 0 <= i < j < |FullLog(arrivals)|
      ensures FirstIndex(arrivals, FullLog(arrivals)[i]) < FirstIndex(arrivals, FullLog(arrivals)[j])
    {
      FullOrderAt(arrivals, i, j);
    }
  }

  lemma FirstArrivalIsLast<T>(pre: seq<T>, a: T)
    requires a !in pre
    ensures FirstIndex(pre + [a], a) == |pre|
  {
  }

  // ---------------------------------------------------------------------
  // The engine
  // ---------------------------------------------------------------------

  function Subscribe(e: Engine, o: ObserverId): (r: Engine)
    ensures o in r.observers
    ensures forall x :: x != o ==> (x in r.observers <==> x in e.observers)
  {
    Engine(e.observers + {o})
  }

  /** Removing an observer that is not subscribed fails, as `set.remove`
      raises; otherwise exactly that observer leaves. */
  function Unsubscribe(e: Engine, o: ObserverId): (r: Result<Engine, EngineError>)
    ensures r.Failure? <==> o !in e.observers
    ensures r.Success? ==> o !in r.value.observers
    ensures r.Success? ==> forall x :: x != o ==> (x in r.value.observers <==> x in e.observers)
  {
    if o in e.observers then Success(Engine(e.observers - {o})) else Failure(KeyError)
  }

  lemma SubscribeIdempotent(e: Engine, o: ObserverId)
    ensures Subscribe(Subscribe(e, o), o) == Subscribe(e, o)
  {
  }

  /** Subscribing a new observer and then unsubscribing it restores the
      engine. */
  lemma SubscribeThenUnsubscribe(e: Engine, o: ObserverId)
    requires o !in e.observers
    ensures Unsubscribe(Subscribe(e, o), o) == Success(e)
  {
    assert (e.observers + {o}) - {o} == e.observers;
  }

  /** Reference meaning of a broadcast: every subscribed observer has received
      the achievement once, and every other object is as it was. */
  function Notified(e: Engine, heap: Heap, a: Achievement): (r: Heap)
    requires e.observers <= heap.Keys
  {
    map o | o in heap :: if o in e.observers then Update(heap[o], a) else heap[o]
  }

  /** Walks the subscribers one at a time, in an order left unspecified, and
      updates each. */
  method Notify(e: Engine, heap: Heap, a: Achievement) returns (r: Heap)
    requires e.observers <= heap.Keys
    ensures r.Keys == heap.Keys
    ensures forall o :: o in e.observers ==> r[o] == Update(heap[o], a)
    ensures forall o :: o in heap && o !in e.observers ==> r[o] == heap[o]
    ensures r == Notified(e, heap, a)
  {
    r := heap;
    var todo := e.observers;
    while todo != {}
      invariant todo <= e.observers
      invariant r.Keys == heap.Keys
      invariant forall o :: o in e.observers && o !in todo ==> r[o] == Update(heap[o], a)
      invariant forall o :: o in heap && (o in todo || o !in e.observers) ==> r[o] == heap[o]
      decreases |todo|
    {
      var o :| o in todo;
      r := r[o := Update(r[o], a)];
      todo := todo - {o};
    }
  }

  /** Broadcasting the same achievement twice changes nothing the second
      time. */
  lemma NotifyIdempotent(e: Engine, heap: Heap, a: Achievement)
    requires e.observers <= heap.Keys
    ensures Notified(e, Notified(e, heap, a), a) == Notified(e, heap, a)
  {
    forall o | o in e.observers {
      UpdateIdempotent(heap[o], a);
    }
  }

  /** An unsubscribed observer no longer hears broadcasts. */
  lemma UnsubscribedMissesBroadcast(e: Engine, heap: Heap, o: ObserverId, a: Achievement)
    requires e.observers <= heap.Keys && o in e.observers
    ensures Unsubscribe(e, o).Success?
    ensures Notified(Unsubscribe(e, o).value, heap, a)[o] == heap[o]
  {
  }
}
