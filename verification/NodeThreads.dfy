/** The RPC publisher's node threads: opened for listed nodes, closed for nodes no longer listed. */
module NodeThreads {
  import opened Messages

  type NodeId = nat
  type ThreadId = nat

  /** A call's node list with the dial outcome of each position, should it be dialled. */
  datatype Listing = Listing(nodes: seq<NodeId>, dials: seq<bool>) {
    predicate Ok() {
      |nodes| == |dials|
    }

    predicate Lists(n: NodeId) {
      n in nodes
    }

    ghost predicate Dials(n: NodeId)
      requires Ok()
    {
      exists k :: 0 <= k < |nodes| && nodes[k] == n && dials[k]
    }
  }

  ghost predicate Injective(m: map<NodeId, ThreadId>) {
    forall a, b :: a in m && b in m && m[a] == m[b] ==> a == b
  }

  ghost predicate NoRepeats(s: seq<ThreadId>) {
    forall i, j :: 0 <= i < j < |s| ==> s[i] != s[j]
  }

  /** Every thread opened so far is live in the map or closed exactly once, never both. */
  ghost predicate Conserved(threads: map<NodeId, ThreadId>, started: nat, closed: seq<ThreadId>) {
    && Injective(threads) && NoRepeats(closed)
    && (forall n :: n in threads ==> threads[n] < started && threads[n] !in closed)
    && (forall t :: t in closed ==> t < started)
    && (forall t :: 0 <= t < started ==> t in closed || t in threads.Values)
  }

  lemma OpenKeeps(threads: map<NodeId, ThreadId>, started: nat, closed: seq<ThreadId>, n: NodeId)
    requires Conserved(threads, started, closed) && n !in threads
    ensures Conserved(threads[n := started], started + 1, closed)
  {
    var threads' := threads[n := started];
    forall t: nat | t < started + 1 && t !in closed
      ensures t in threads'.Values
    {
      if t == started {
        assert threads'[n] == t;
      } else {
        var a :| a in threads && threads[a] == t;
        assert threads'[a] == t;
      }
    }
  }

  lemma CloseKeeps(threads: map<NodeId, ThreadId>, started: nat, closed: seq<ThreadId>, n: NodeId)
    requires Conserved(threads, started, closed) && n in threads
    ensures Conserved(threads - {n}, started, closed + [threads[n]])
  {
    var threads' := threads - {n};
    forall t: nat | t < started && t !in closed + [threads[n]]
      ensures t in threads'.Values
    {
      assert t !in closed;
      var a :| a in threads && threads[a] == t;
      assert a != n && threads'[a] == t;
    }
  }

  /** The threads after dialling the first `k` listed nodes: those that were there, unchanged, and those whose
      dial succeeded. */
  ghost predicate DialledTo(before: map<NodeId, ThreadId>, l: Listing, k: nat, threads: map<NodeId, ThreadId>)
    requires l.Ok() && k <= |l.nodes|
  {
    && (forall n :: n in threads <==> (n in before || exists j :: 0 <= j < k && l.nodes[j] == n && l.dials[j]))
    && (forall n :: n in before && n in threads ==> threads[n] == before[n])
  }

  /** The threads left when all but `todo` have been compared with the list. */
  ghost predicate KeptListed(
    before: map<NodeId, ThreadId>, l: Listing, todo: set<NodeId>, threads: map<NodeId, ThreadId>) {
    && (forall n :: n in threads <==> (n in before && (n in todo || l.Lists(n))))
    && (forall n :: n in before && n in threads ==> threads[n] == before[n])
  }

  class RpcPublisher {
    var threads: map<NodeId, ThreadId>
    var started: nat
    var closed: seq<ThreadId>

    ghost predicate Valid()
      reads this
    {
      Conserved(threads, started, closed)
    }

    constructor ()
      ensures Valid() && threads == map[] && started == 0 && closed == []
    {
      threads, started, closed := map[], 0, [];
    }

    /** Every listed node without a thread is dialled; a failed dial is skipped. */
    method OpenListed(l: Listing)
      requires Valid() && l.Ok()
      modifies this`threads, this`started
      ensures Valid()
      ensures DialledTo(old(threads), l, |l.nodes|, threads)
    {
      for k := 0 to |l.nodes|
        invariant Conserved(threads, started, closed)
        invariant DialledTo(old(threads), l, k, threads)
      {
        var node := l.nodes[k];
        if node !in threads && l.dials[k] {
          OpenKeeps(threads, started, closed, node);
          threads := threads[node := started];
          started := started + 1;
        }
      }
    }

    method CloseUnlisted(l: Listing)
      requires Valid()
      modifies this`threads, this`closed
      ensures Valid()
      ensures KeptListed(old(threads), l, {}, threads)
      ensures old(closed) <= closed
    {
      var todo := threads.Keys;
      while todo != {}
        invariant todo <= threads.Keys
        invariant Conserved(threads, started, closed)
        invariant KeptListed(old(threads), l, todo, threads)
        invariant old(closed) <= closed
        decreases todo
      {
        var n :| n in todo;
        if n !in l.nodes {
          CloseKeeps(threads, started, closed, n);
          closed := closed + [threads[n]];
          threads := threads - {n};
        }
        todo := todo - {n};
      }
    }

    /** One call. A failing node list changes nothing; otherwise the live nodes are the listed ones that were
        live or whose dial succeeds now, threads that stay are the same ones, and no thread is lost or closed
        twice. */
    method PublishMessages(list: Option<Listing>) returns (ok: bool)
      requires Valid() && (list.Some? ==> list.value.Ok())
      modifies this
      ensures Valid() && ok == list.Some?
      ensures list.None? ==> threads == old(threads) && started == old(started) && closed == old(closed)
      ensures list.Some? ==> threads.Keys == LiveStep(old(threads.Keys), list.value)
      ensures forall n :: n in threads && n in old(threads) ==> threads[n] == old(threads)[n]
      ensures old(closed) <= closed
    {
      if list.None? {
        return false;
      }
      OpenListed(list.value);
      ghost var mid := threads;
      CloseUnlisted(list.value);
      forall n
        ensures n in threads <==> n in LiveStep(old(threads.Keys), list.value)
      {
        assert n in threads <==> n in mid && list.value.Lists(n);
        assert n in mid <==> n in old(threads) || list.value.Dials(n);
      }
      return true;
    }
  }

  ghost function LiveStep(live: set<NodeId>, l: Listing): set<NodeId>
    requires l.Ok()
  {
    set n | n in l.nodes && (n in live || l.Dials(n))
  }

  // ---- Runs of calls ----------------------------------------------------------------------------------

  ghost function LiveAfter(calls: seq<Listing>): set<NodeId>
    requires forall c :: c in calls ==> c.Ok()
  {
    if calls == [] then {}
    else LiveStep(LiveAfter(calls[..|calls| - 1]), calls[|calls| - 1])
  }

  /** The node's dial succeeds in the j-th call and the node is listed from then on. */
  ghost predicate AliveSince(calls: seq<Listing>, n: NodeId, j: nat)
    requires forall c :: c in calls ==> c.Ok()
  {
    && j < |calls| && calls[j].Dials(n)
    && forall i :: j <= i < |calls| ==> calls[i].Lists(n)
  }

  /** Over any run of calls a node is live exactly when its dial succeeded in some call and it has been listed
      ever since. */
  lemma {:induction false} LiveExactly(calls: seq<Listing>, n: NodeId)
    requires forall c :: c in calls ==> c.Ok()
    ensures n in LiveAfter(calls) <==> exists j: nat :: AliveSince(calls, n, j)
  {
    if calls != [] {
      var front, last := calls[..|calls| - 1], calls[|calls| - 1];
      LiveExactly(front, n);
      if n in LiveAfter(calls) {
        if n in LiveAfter(front) {
          var j: nat :| AliveSince(front, n, j);
          assert AliveSince(calls, n, j);
        } else {
          assert AliveSince(calls, n, |front|);
        }
      }
      if j: nat :| AliveSince(calls, n, j) {
        assert calls[|front|].Lists(n);
        if j < |front| {
          assert AliveSince(front, n, j) by {
            forall i | j <= i < |front|
              ensures front[i].Lists(n)
            {
              assert front[i] == calls[i];
            }
          }
        }
      }
    }
  }
}
