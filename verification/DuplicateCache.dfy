/** The publisher that forwards a message only once in a while: a two-generation duplicate cache, aged by a
    ticker. */
module DuplicateCache {
  import opened Messages

  /** True marks an entry seen since the last tick, false one seen before it. */
  type Marks = map<Cid, bool>

  function CidsOf(msgs: seq<SignedMessage>): set<Cid> {
    set k | 0 <= k < |msgs| :: SignedCid(msgs[k])
  }

  /** The messages of a batch that are neither cached nor repeated in the batch, in order. */
  function Fresh(c: Marks, msgs: seq<SignedMessage>): seq<SignedMessage> {
    if msgs == [] then []
    else
      var front, last := msgs[..|msgs| - 1], msgs[|msgs| - 1];
      if SignedCid(last) in c || SignedCid(last) in CidsOf(front) then Fresh(c, front)
      else Fresh(c, front) + [last]
  }

  function MarkAll(c: Marks, msgs: seq<SignedMessage>): Marks {
    map x | x in c.Keys + CidsOf(msgs) :: if x in CidsOf(msgs) then true else c[x]
  }

  function Aged(c: Marks): Marks {
    map x | x in c && c[x] :: false
  }

  lemma CidsSnoc(msgs: seq<SignedMessage>, m: SignedMessage)
    ensures CidsOf(msgs + [m]) == CidsOf(msgs) + {SignedCid(m)}
  {
    var all := msgs + [m];
    forall x
      ensures x in CidsOf(all) <==> x in CidsOf(msgs) || x == SignedCid(m)
    {
      if x in CidsOf(msgs) {
        var k :| 0 <= k < |msgs| && SignedCid(msgs[k]) == x;
        assert all[k] == msgs[k];
      }
      if x == SignedCid(m) {
        assert all[|msgs|] == m;
      }
      if x in CidsOf(all) {
        var k :| 0 <= k < |all| && SignedCid(all[k]) == x;
      }
    }
  }

  class CachePublisher {
    var cache: Marks

    constructor ()
      ensures cache == map[]
    {
      cache := map[];
    }

    method HandleBatch(msgs: seq<SignedMessage>) returns (newMsgs: seq<SignedMessage>)
      modifies this
      ensures newMsgs == Fresh(old(cache), msgs)
      ensures cache == MarkAll(old(cache), msgs)
    {
      newMsgs := [];
      for k := 0 to |msgs|
        invariant newMsgs == Fresh(old(cache), msgs[..k])
        invariant cache == MarkAll(old(cache), msgs[..k])
      {
        var c := SignedCid(msgs[k]);
        assert msgs[..k + 1] == msgs[..k] + [msgs[k]];
        CidsSnoc(msgs[..k], msgs[k]);
        if c !in cache {
          newMsgs := newMsgs + [msgs[k]];
        }
        cache := cache[c := true];
      }
      assert msgs[..|msgs|] == msgs;
    }

    /** Marks turn old, old marks are dropped. */
    method HandleTick()
      modifies this
      ensures cache == Aged(old(cache))
    {
      var todo := cache.Keys;
      while todo != {}
        invariant todo <= old(cache.Keys)
        invariant forall x :: x in cache <==> x in old(cache) && (x in todo || old(cache)[x])
        invariant forall x :: x in cache ==> cache[x] == (x in todo && old(cache)[x])
        decreases todo
      {
        var k :| k in todo;
        if cache[k] {
          cache := cache[k := false];
        } else {
          cache := cache - {k};
        }
        todo := todo - {k};
      }
    }
  }

  // ---- The cache as a window on its history --------------------------------------------------------------

  datatype Event = Batch(msgs: seq<SignedMessage>) | Tick

  function CacheAfter(trace: seq<Event>): Marks {
    if trace == [] then map[]
    else
      var before := CacheAfter(trace[..|trace| - 1]);
      match trace[|trace| - 1]
      case Batch(msgs) => MarkAll(before, msgs)
      case Tick => Aged(before)
  }

  predicate Submits(e: Event, c: Cid) {
    e.Batch? && c in CidsOf(e.msgs)
  }

  /** The number of ticks after the i-th event. */
  function TicksAfter(trace: seq<Event>, i: nat): nat
    requires i < |trace|
  {
    if i == |trace| - 1 then 0
    else TicksAfter(trace[..|trace| - 1], i) + (if trace[|trace| - 1].Tick? then 1 else 0)
  }

  /** Some submission has at most `n` ticks after it. */
  ghost predicate SubmittedWithin(trace: seq<Event>, c: Cid, n: int) {
    exists i :: 0 <= i < |trace| && Submits(trace[i], c) && TicksAfter(trace, i) <= n
  }

  lemma WithinStep(trace: seq<Event>, e: Event, c: Cid, n: int)
    ensures SubmittedWithin(trace + [e], c, n) <==>
            (Submits(e, c) && n >= 0) || SubmittedWithin(trace, c, if e.Tick? then n - 1 else n)
  {
    var all := trace + [e];
    assert all[..|all| - 1] == trace;
    var m := if e.Tick? then n - 1 else n;
    if SubmittedWithin(trace, c, m) {
      var i :| 0 <= i < |trace| && Submits(trace[i], c) && TicksAfter(trace, i) <= m;
      assert all[i] == trace[i] && TicksAfter(all, i) <= n;
    }
    if Submits(e, c) && n >= 0 {
      assert all[|trace|] == e && TicksAfter(all, |trace|) == 0;
    }
    if SubmittedWithin(all, c, n) {
      var i :| 0 <= i < |all| && Submits(all[i], c) && TicksAfter(all, i) <= n;
      if i < |trace| {
        assert Submits(trace[i], c) && TicksAfter(trace, i) <= m;
      }
    }
  }

  /** The cache refines its history: an identifier is marked new exactly when it was submitted since the last
      tick, and cached at all exactly when it was submitted since the tick before. */
  lemma {:induction false} CacheIsWindow(trace: seq<Event>, c: Cid)
    ensures c in CacheAfter(trace) && CacheAfter(trace)[c] <==> SubmittedWithin(trace, c, 0)
    ensures c in CacheAfter(trace) <==> SubmittedWithin(trace, c, 1)
  {
    if trace != [] {
      var front, e := trace[..|trace| - 1], trace[|trace| - 1];
      assert trace == front + [e];
      CacheIsWindow(front, c);
      WithinStep(front, e, c, 0);
      WithinStep(front, e, c, 1);
      assert !SubmittedWithin(front, c, -1);
    }
  }

  function CountCid(msgs: seq<SignedMessage>, c: Cid): nat {
    if msgs == [] then 0
    else CountCid(msgs[..|msgs| - 1], c) + (if SignedCid(msgs[|msgs| - 1]) == c then 1 else 0)
  }

  lemma {:induction false} FreshCount(cache: Marks, msgs: seq<SignedMessage>, c: Cid)
    ensures CountCid(Fresh(cache, msgs), c) == if c in CidsOf(msgs) && c !in cache then 1 else 0
  {
    if msgs != [] {
      var front, last := msgs[..|msgs| - 1], msgs[|msgs| - 1];
      assert msgs == front + [last];
      FreshCount(cache, front, c);
      CidsSnoc(front, last);
      var f := Fresh(cache, front);
      assert (f + [last])[..|f|] == f;
    }
  }

  /** A batch forwards an identifier at most once, and exactly when it is in the batch and at least two ticks
      have passed since every earlier submission of it. */
  lemma ForwardedExactly(trace: seq<Event>, msgs: seq<SignedMessage>, c: Cid)
    ensures CountCid(Fresh(CacheAfter(trace), msgs), c) ==
            if c in CidsOf(msgs) && !SubmittedWithin(trace, c, 1) then 1 else 0
  {
    FreshCount(CacheAfter(trace), msgs, c);
    CacheIsWindow(trace, c);
  }

  ghost predicate SortedByNonce(msgs: seq<SignedMessage>) {
    forall i, j :: 0 <= i < j < |msgs| ==> msgs[i].msg.nonce <= msgs[j].msg.nonce
  }

  /** Filtering duplicates keeps the order: what is forwarded of a sorted batch is sorted and from the batch. */
  lemma {:induction false} FreshKeepsOrder(c: Marks, msgs: seq<SignedMessage>)
    ensures forall m :: m in Fresh(c, msgs) ==> m in msgs
    ensures SortedByNonce(msgs) ==> SortedByNonce(Fresh(c, msgs))
  {
    if msgs != [] {
      var front, last := msgs[..|msgs| - 1], msgs[|msgs| - 1];
      assert msgs == front + [last];
      FreshKeepsOrder(c, front);
      var f := Fresh(c, front);
      forall k | 0 <= k < |f| && SortedByNonce(msgs)
        ensures f[k].msg.nonce <= last.msg.nonce
      {
        assert f[k] in front;
      }
    }
  }
}
