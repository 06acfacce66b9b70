/** The observer demo's `NewsPublisher`: a list of observers, the latest news,
    and notification by calling each observer's `Update` in list order. Each
    `Update` is recorded as one delivery in the publisher's log. Observers are
    compared by identity, as `List.Remove` does for a class without `Equals`. */
module NewsPublisher {
  import opened Wrappers

  /** One call `observer.Update(message)`. */
  datatype Delivery<O> = Delivery(observer: O, message: string)

  /** `observers`, `latestNews` (null until first set), and the deliveries made. */
  datatype Publisher<O> = Publisher(observers: seq<O>, latestNews: Option<string>, log: seq<Delivery<O>>)

  /** `new NewsPublisher()`: an empty list, no news yet, nothing delivered. */
  function NewPublisher<O>(): (p: Publisher<O>)
    ensures p.observers == [] && p.latestNews.None? && p.log == []
  {
    Publisher([], None, [])
  }

  /** `Attach`: `List.Add` appends, duplicates included. */
  function Attach<O>(p: Publisher<O>, o: O): (q: Publisher<O>)
    ensures q.observers == p.observers + [o]
    ensures q.latestNews == p.latestNews && q.log == p.log
  {
    p.(observers := p.observers + [o])
  }

  /** The position of the first occurrence of `x`. */
  function IndexOf<O(==)>(s: seq<O>, x: O): (i: nat)
    requires x in s
    ensures i < |s| && s[i] == x
    ensures x !in s[..i]
    decreases |s|
  {
    if s[0] == x then 0
    else
      var j := IndexOf(s[1..], x);
      assert s[1..][..j] == s[1..j + 1];
      assert s[..j + 1] == [s[0]] + s[1..][..j];
      j + 1
  }

  /** `List.Remove`: drop the first occurrence, if there is one. */
  function RemoveFirst<O(==)>(s: seq<O>, x: O): (r: seq<O>)
    ensures x !in s ==> r == s
    decreases |s|
  {
    if s == [] then []
    else if s[0] == x then s[1..]
    else [s[0]] + RemoveFirst(s[1..], x)
  }

  /** Removal cuts out exactly the entry at the first occurrence and keeps the
      order of everything else. */
  lemma {:induction false} RemoveFirstDropsFirstOccurrence<O>(s: seq<O>, x: O)
    requires x in s
    ensures RemoveFirst(s, x) == s[..IndexOf(s, x)] + s[IndexOf(s, x) + 1..]
    decreases |s|
  {
    if s[0] != x {
      IndexOfPastHead(s, x);
      var j := IndexOf(s[1..], x);
      RemoveFirstDropsFirstOccurrence(s[1..], x);
      SplitPastHead(s, j);
    }
  }

  lemma IndexOfPastHead<O>(s: seq<O>, x: O)
    requires x in s && s[0] != x
    ensures x in s[1..] && IndexOf(s, x) == IndexOf(s[1..], x) + 1
  {
  }

  lemma SplitPastHead<O>(s: seq<O>, j: nat)
    requires j + 1 < |s|
    ensures s[..j + 1] + s[j + 2..] == [s[0]] + (s[1..][..j] + s[1..][j + 1..])
  {
    assert s[..j + 1] == [s[0]] + s[1..][..j];
    assert s[j + 2..] == s[1..][j + 1..];
  }

  /** Detaching removes one occurrence of `x` and keeps everything else. */
  lemma {:induction false} RemoveFirstCounts<O>(s: seq<O>, x: O)
    ensures multiset(RemoveFirst(s, x)) == multiset(s) - multiset{x}
    decreases |s|
  {
    if s != [] {
      assert s == [s[0]] + s[1..];
      if s[0] != x {
        RemoveFirstCounts(s[1..], x);
        assert RemoveFirst(s, x) == [s[0]] + RemoveFirst(s[1..], x);
      }
    }
  }

  /** `Detach`: `List.Remove`, which leaves the list alone when the observer is
      absent. */
  function Detach<O(==)>(p: Publisher<O>, o: O): (q: Publisher<O>)
    ensures multiset(q.observers) == multiset(p.observers) - multiset{o}
    ensures o !in p.observers ==> q == p
    ensures q.latestNews == p.latestNews && q.log == p.log
  {
    RemoveFirstCounts(p.observers, o);
    p.(observers := RemoveFirst(p.observers, o))
  }

  /** The deliveries of one `foreach` over `observers` calling `Update(m)`. */
  function Broadcast<O>(observers: seq<O>, m: string): (ds: seq<Delivery<O>>)
    ensures |ds| == |observers|
    ensures forall i :: 0 <= i < |observers| ==> ds[i] == Delivery(observers[i], m)
    decreases |observers|
  {
    if observers == [] then []
    else Broadcast(observers[..|observers| - 1], m) + [Delivery(observers[|observers| - 1], m)]
  }

  /** `Notify(message)`: every entry of the list, in order, receives the
      message once; the list and the latest news are untouched. */
  function Notify<O>(p: Publisher<O>, m: string): (q: Publisher<O>)
    ensures q.observers == p.observers && q.latestNews == p.latestNews
    ensures |q.log| == |p.log| + |p.observers|
    ensures q.log[..|p.log|] == p.log
    ensures forall i :: 0 <= i < |p.observers| ==> q.log[|p.log| + i] == Delivery(p.observers[i], m)
  {
    p.(log := p.log + Broadcast(p.observers, m))
  }

  /** The `LatestNews` getter. */
  function LatestNews<O>(p: Publisher<O>): Option<string> {
    p.latestNews
  }

  /** The `LatestNews` setter: store the value, then notify with it. */
  function SetLatestNews<O>(p: Publisher<O>, v: string): (q: Publisher<O>)
    ensures LatestNews(q) == Some(v)
    ensures q.observers == p.observers
    ensures q.log == p.log + Broadcast(p.observers, v)
  {
    var stored := p.(latestNews := Some(v));
    Notify(stored, stored.latestNews.value)
  }

  /** How many deliveries in `log` went to `o`. */
  function DeliveriesTo<O(==)>(log: seq<Delivery<O>>, o: O): nat
    decreases |log|
  {
    if log == [] then 0
    else DeliveriesTo(log[..|log| - 1], o) + (if log[|log| - 1].observer == o then 1 else 0)
  }

  /** A broadcast reaches each observer once per entry it has in the list. */
  lemma {:induction false} BroadcastReachesEachEntry<O>(observers: seq<O>, m: string, o: O)
    ensures DeliveriesTo(Broadcast(observers, m), o) == multiset(observers)[o]
    decreases |observers|
  {
    if observers != [] {
      var init := observers[..|observers| - 1];
      assert observers == init + [observers[|observers| - 1]];
      var ds := Broadcast(observers, m);
      assert ds[..|ds| - 1] == Broadcast(init, m);
      BroadcastReachesEachEntry(init, m, o);
    }
  }

  /** After detaching an observer attached once, later news no longer reaches
      it, while every other observer receives it as often as before. */
  lemma DetachedObserverMissesLaterNews<O>(p: Publisher<O>, o: O, v: string, other: O)
    requires multiset(p.observers)[o] == 1
    requires other != o
    ensures DeliveriesTo(Broadcast(Detach(p, o).observers, v), o) == 0
    ensures DeliveriesTo(Broadcast(Detach(p, o).observers, v), other) == multiset(p.observers)[other]
  {
    BroadcastReachesEachEntry(Detach(p, o).observers, v, o);
    BroadcastReachesEachEntry(Detach(p, o).observers, v, other);
  }

  /** The calls a client can make on a publisher. */
  datatype Op<O> = AttachOp(o: O) | DetachOp(o: O) | NotifyOp(m: string) | SetOp(v: string)

  function Apply<O(==)>(p: Publisher<O>, op: Op<O>): Publisher<O> {
    match op
    case AttachOp(o) => Attach(p, o)
    case DetachOp(o) => Detach(p, o)
    case NotifyOp(m) => Notify(p, m)
    case SetOp(v) => SetLatestNews(p, v)
  }

  function ApplyAll<O(==)>(p: Publisher<O>, ops: seq<Op<O>>): Publisher<O>
    decreases |ops|
  {
    if ops == [] then p else Apply(ApplyAll(p, ops[..|ops| - 1]), ops[|ops| - 1])
  }

  lemma ApplyAllSnoc<O>(p: Publisher<O>, ops: seq<Op<O>>, op: Op<O>)
    ensures ApplyAll(p, ops + [op]) == Apply(ApplyAll(p, ops), op)
  {
    assert (ops + [op])[..|ops|] == ops;
  }

  /** The value of the last `SetOp` in `ops`, or `before` if there is none. */
  function LastSet<O>(ops: seq<Op<O>>, before: Option<string>): Option<string>
    decreases |ops|
  {
    if ops == [] then before
    else if ops[|ops| - 1].SetOp? then Some(ops[|ops| - 1].v)
    else LastSet(ops[..|ops| - 1], before)
  }

  /** Only the setter changes the latest news: the getter returns the value of
      the last set, whatever attaching, detaching and notifying happened. */
  lemma {:induction false} GetterReturnsLastSet<O>(p: Publisher<O>, ops: seq<Op<O>>)
    ensures LatestNews(ApplyAll(p, ops)) == LastSet(ops, p.latestNews)
    decreases |ops|
  {
    if ops != [] {
      GetterReturnsLastSet(p, ops[..|ops| - 1]);
    }
  }

  lemma DemoAttach<O>(alice: O, bob: O)
    ensures Attach(Attach(NewPublisher<O>(), alice), bob) == Publisher([alice, bob], None, [])
  {
  }

  lemma DemoHeadlineToTwo<O>(alice: O, bob: O, m: string)
    ensures SetLatestNews(Publisher([alice, bob], None, []), m)
      == Publisher([alice, bob], Some(m), [Delivery(alice, m), Delivery(bob, m)])
  {
    assert Broadcast([alice, bob], m) == [Delivery(alice, m), Delivery(bob, m)];
  }

  lemma DemoDetach<O>(alice: O, bob: O, news: Option<string>, log: seq<Delivery<O>>)
    requires alice != bob
    ensures Detach(Publisher([alice, bob], news, log), bob) == Publisher([alice], news, log)
  {
    assert [alice, bob][1..] == [bob];
    assert RemoveFirst([bob], bob) == [];
  }

  lemma DemoHeadlineToOne<O>(alice: O, news: Option<string>, log: seq<Delivery<O>>, m: string)
    ensures SetLatestNews(Publisher([alice], news, log), m) == Publisher([alice], Some(m), log + [Delivery(alice, m)])
  {
    assert Broadcast([alice], m) == [Delivery(alice, m)];
  }

  /** The demo's sequence: two subscribers attached, the first headline reaches
      both, the second is detached, the next headline reaches the first only. */
  lemma DemoDeliveries<O>(alice: O, bob: O, m1: string, m2: string)
    requires alice != bob
    ensures var q := SetLatestNews(Detach(SetLatestNews(Attach(Attach(NewPublisher<O>(), alice), bob), m1), bob), m2);
      q.log == [Delivery(alice, m1), Delivery(bob, m1), Delivery(alice, m2)] && LatestNews(q) == Some(m2)
  {
    var d1 := [Delivery(alice, m1), Delivery(bob, m1)];
    DemoAttach(alice, bob);
    DemoHeadlineToTwo(alice, bob, m1);
    DemoDetach(alice, bob, Some(m1), d1);
    DemoHeadlineToOne(alice, Some(m1), d1, m2);
  }
}
