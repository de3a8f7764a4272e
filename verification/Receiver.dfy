/** The receive loop in front of the publishers: each batch is grouped by sender and each group sorted. */
module Receiver {
  import opened Messages
  import opened DuplicateCache

  type Groups = map<Address, seq<SignedMessage>>

  /** The messages of a batch whose sender is in the set, in order. */
  function FromAny(msgs: seq<SignedMessage>, senders: set<Address>): seq<SignedMessage> {
    if msgs == [] then []
    else
      var front, last := FromAny(msgs[..|msgs| - 1], senders), msgs[|msgs| - 1];
      if last.msg.from in senders then front + [last] else front
  }

  function Senders(msgs: seq<SignedMessage>): set<Address> {
    set k | 0 <= k < |msgs| :: msgs[k].msg.from
  }

  lemma SendersSnoc(msgs: seq<SignedMessage>, m: SignedMessage)
    ensures Senders(msgs + [m]) == Senders(msgs) + {m.msg.from}
  {
    var all := msgs + [m];
    forall a
      ensures a in Senders(all) <==> a in Senders(msgs) || a == m.msg.from
    {
      if a in Senders(msgs) {
        var k :| 0 <= k < |msgs| && msgs[k].msg.from == a;
        assert all[k] == msgs[k];
      }
      if a == m.msg.from {
        assert all[|msgs|] == m;
      }
      if a in Senders(all) {
        var k :| 0 <= k < |all| && all[k].msg.from == a;
      }
    }
  }

  ghost predicate GroupsOf(g: Groups, msgs: seq<SignedMessage>) {
    && g.Keys == Senders(msgs)
    && forall a :: a in g ==> g[a] == FromAny(msgs, {a})
  }

  lemma {:induction false} FromNone(msgs: seq<SignedMessage>, senders: set<Address>)
    requires senders !! Senders(msgs)
    ensures FromAny(msgs, senders) == []
  {
    if msgs != [] {
      var front, last := msgs[..|msgs| - 1], msgs[|msgs| - 1];
      assert msgs == front + [last];
      SendersSnoc(front, last);
      FromNone(front, senders);
    }
  }

  method GroupByAddress(msgs: seq<SignedMessage>) returns (g: Groups)
    ensures GroupsOf(g, msgs)
  {
    g := map[];
    for k := 0 to |msgs|
      invariant GroupsOf(g, msgs[..k])
    {
      var m := msgs[k];
      assert msgs[..k + 1] == msgs[..k] + [m] && msgs[..k + 1][..k] == msgs[..k];
      SendersSnoc(msgs[..k], m);
      if m.msg.from !in g {
        FromNone(msgs[..k], {m.msg.from});
      }
      g := g[m.msg.from := (if m.msg.from in g then g[m.msg.from] else []) + [m]];
    }
    assert msgs[..|msgs|] == msgs;
  }

  lemma {:induction false} FromOne(msgs: seq<SignedMessage>, a: Address)
    ensures forall k :: 0 <= k < |FromAny(msgs, {a})| ==> FromAny(msgs, {a})[k].msg.from == a
  {
    if msgs != [] {
      FromOne(msgs[..|msgs| - 1], a);
    }
  }

  lemma InsertSorted(r: seq<SignedMessage>, p: nat, m: SignedMessage)
    requires SortedByNonce(r) && p <= |r|
    requires forall i :: 0 <= i < p ==> r[i].msg.nonce <= m.msg.nonce
    requires p < |r| ==> m.msg.nonce <= r[p].msg.nonce
    ensures SortedByNonce(r[..p] + [m] + r[p..])
    ensures multiset(r[..p] + [m] + r[p..]) == multiset(r) + multiset{m}
  {
    assert r == r[..p] + r[p..];
  }

  method InsertByNonce(r: seq<SignedMessage>, m: SignedMessage) returns (r': seq<SignedMessage>)
    requires SortedByNonce(r)
    ensures SortedByNonce(r') && multiset(r') == multiset(r) + multiset{m}
  {
    var p := 0;
    while p < |r| && r[p].msg.nonce < m.msg.nonce
      invariant 0 <= p <= |r|
      invariant forall i :: 0 <= i < p ==> r[i].msg.nonce < m.msg.nonce
    {
      p := p + 1;
    }
    InsertSorted(r, p, m);
    r' := r[..p] + [m] + r[p..];
  }

  /** Sorting a group by nonce. */
  method SortGroup(msgs: seq<SignedMessage>) returns (r: seq<SignedMessage>)
    ensures SortedByNonce(r) && multiset(r) == multiset(msgs)
  {
    r := [];
    for k := 0 to |msgs|
      invariant SortedByNonce(r) && multiset(r) == multiset(msgs[..k])
    {
      assert msgs[..k + 1] == msgs[..k] + [msgs[k]];
      r := InsertByNonce(r, msgs[k]);
    }
    assert msgs[..|msgs|] == msgs;
  }

  function Flatten(groups: seq<seq<SignedMessage>>): seq<SignedMessage> {
    if groups == [] then [] else Flatten(groups[..|groups| - 1]) + groups[|groups| - 1]
  }

  lemma {:induction false} FromMore(msgs: seq<SignedMessage>, senders: set<Address>, a: Address)
    requires a !in senders
    ensures multiset(FromAny(msgs, senders + {a})) == multiset(FromAny(msgs, senders)) + multiset(FromAny(msgs, {a}))
  {
    if msgs != [] {
      FromMore(msgs[..|msgs| - 1], senders, a);
    }
  }

  lemma {:induction false} FromAll(msgs: seq<SignedMessage>, senders: set<Address>)
    requires Senders(msgs) <= senders
    ensures FromAny(msgs, senders) == msgs
  {
    if msgs != [] {
      var front, last := msgs[..|msgs| - 1], msgs[|msgs| - 1];
      assert msgs == front + [last];
      SendersSnoc(front, last);
      FromAll(front, senders);
    }
  }

  /** A published group: one sender, at least one message, ascending nonces. */
  ghost predicate GroupOk(group: seq<SignedMessage>) {
    && group != [] && SortedByNonce(group)
    && forall k :: 0 <= k < |group| ==> group[k].msg.from == group[0].msg.from
  }

  lemma SortedGroup(msgs: seq<SignedMessage>, a: Address, group: seq<SignedMessage>)
    requires a in Senders(msgs) && SortedByNonce(group) && multiset(group) == multiset(FromAny(msgs, {a}))
    ensures GroupOk(group) && group[0].msg.from == a
  {
    var src := FromAny(msgs, {a});
    FromOne(msgs, a);
    HasSender(msgs, a);
    assert |group| == |multiset(group)| == |src|;
    forall k | 0 <= k < |group|
      ensures group[k].msg.from == a
    {
      assert group[k] in multiset(group);
      assert group[k] in src;
    }
  }

  lemma {:induction false} HasSender(msgs: seq<SignedMessage>, a: Address)
    requires a in Senders(msgs)
    ensures FromAny(msgs, {a}) != []
  {
    var front, last := msgs[..|msgs| - 1], msgs[|msgs| - 1];
    assert msgs == front + [last];
    SendersSnoc(front, last);
    if last.msg.from != a {
      HasSender(front, a);
    }
  }

  ghost predicate GroupsOk(published: seq<seq<SignedMessage>>) {
    && (forall i :: 0 <= i < |published| ==> GroupOk(published[i]))
    && (forall i, j :: 0 <= i < j < |published| ==> published[i][0].msg.from != published[j][0].msg.from)
  }

  /** The groups published for the senders in `done`. */
  ghost predicate PublishedFor(published: seq<seq<SignedMessage>>, msgs: seq<SignedMessage>, done: set<Address>) {
    && GroupsOk(published)
    && (forall i :: 0 <= i < |published| ==> published[i][0].msg.from in done)
    && multiset(Flatten(published)) == multiset(FromAny(msgs, done))
  }

  lemma PublishedNone(msgs: seq<SignedMessage>)
    ensures PublishedFor([], msgs, {})
  {
    FromNone(msgs, {});
  }

  lemma PublishedAll(published: seq<seq<SignedMessage>>, msgs: seq<SignedMessage>)
    requires PublishedFor(published, msgs, Senders(msgs))
    ensures GroupsOk(published) && multiset(Flatten(published)) == multiset(msgs)
  {
    FromAll(msgs, Senders(msgs));
  }

  lemma PublishOne(
    published: seq<seq<SignedMessage>>, msgs: seq<SignedMessage>, done: set<Address>, a: Address,
    group: seq<SignedMessage>)
    requires PublishedFor(published, msgs, done) && a in Senders(msgs) && a !in done
    requires SortedByNonce(group) && multiset(group) == multiset(FromAny(msgs, {a}))
    ensures PublishedFor(published + [group], msgs, done + {a})
  {
    SortedGroup(msgs, a, group);
    FromMore(msgs, done, a);
    assert (published + [group])[..|published|] == published;
  }

  /** One iteration of the receive loop: sort one sender's group and publish it. */
  method PublishSender(
    groups: Groups, msgs: seq<SignedMessage>, published: seq<seq<SignedMessage>>, ghost done: set<Address>,
    a: Address)
    returns (published': seq<seq<SignedMessage>>)
    requires GroupsOf(groups, msgs) && PublishedFor(published, msgs, done) && a in groups && a !in done
    ensures PublishedFor(published', msgs, done + {a})
  {
    var sorted := SortGroup(groups[a]);
    PublishOne(published, msgs, done, a, sorted);
    published' := published + [sorted];
  }

  method PublishGroups(groups: Groups, msgs: seq<SignedMessage>) returns (published: seq<seq<SignedMessage>>)
    requires GroupsOf(groups, msgs)
    ensures PublishedFor(published, msgs, groups.Keys)
  {
    published := [];
    PublishedNone(msgs);
    var todo := groups.Keys;
    ghost var done: set<Address> := {};
    while todo != {}
      invariant todo == groups.Keys - done && done <= groups.Keys
      invariant PublishedFor(published, msgs, done)
      decreases todo
    {
      var a :| a in todo;
      published := PublishSender(groups, msgs, published, done, a);
      done := done + {a};
      todo := todo - {a};
    }
    assert done == groups.Keys;
  }

  /** Receiver pipeline conservation: the published groups have one sender each and no two the same, are
      sorted, and together are a permutation of the batch. */
  method Receive(msgs: seq<SignedMessage>) returns (published: seq<seq<SignedMessage>>)
    ensures GroupsOk(published)
    ensures multiset(Flatten(published)) == multiset(msgs)
  {
    var groups := GroupByAddress(msgs);
    published := PublishGroups(groups, msgs);
    PublishedAll(published, msgs);
  }
}
