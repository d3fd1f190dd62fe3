/** The SQS source's receipt bookkeeping: what `commit` deletes, in calls of at most ten. */
module Sqs {
  import opened Prelude

  type Url = string
  type Handle = string

  const BATCH_CAP := 10

  /** Receipts of one queue, in the order the messages were yielded. */
  datatype Queue = Queue(url: Url, handles: seq<Handle>)

  datatype Deletion = Deletion(url: Url, handles: seq<Handle>)

  function Flatten(queues: seq<Queue>): seq<(Url, Handle)> {
    if queues == [] then []
    else Flatten(queues[..|queues| - 1]) + Tagged(queues[|queues| - 1].url, queues[|queues| - 1].handles)
  }

  function Tagged(url: Url, handles: seq<Handle>): seq<(Url, Handle)> {
    seq(|handles|, i requires 0 <= i < |handles| => (url, handles[i]))
  }

  function Deleted(calls: seq<Deletion>): seq<(Url, Handle)> {
    if calls == [] then []
    else Deleted(calls[..|calls| - 1]) + Tagged(calls[|calls| - 1].url, calls[|calls| - 1].handles)
  }

  predicate WithinCap(calls: seq<Deletion>) {
    forall i :: 0 <= i < |calls| ==> 1 <= |calls[i].handles| <= BATCH_CAP
  }

  lemma {:induction false} DeletedSnoc(calls: seq<Deletion>, call: Deletion)
    ensures Deleted(calls + [call]) == Deleted(calls) + Tagged(call.url, call.handles)
  {
    assert (calls + [call])[..|calls|] == calls;
  }

  lemma TaggedSplit(url: Url, handles: seq<Handle>, a: nat, b: nat)
    requires a <= b <= |handles|
    ensures Tagged(url, handles[..b]) == Tagged(url, handles[..a]) + Tagged(url, handles[a..b])
  {
  }

  function AddHandle(queues: seq<Queue>, url: Url, handle: Handle): (r: seq<Queue>)
    ensures multiset(Flatten(r)) == multiset(Flatten(queues)) + multiset{(url, handle)}
    decreases |queues|
  {
    if queues == [] then
      assert Flatten([Queue(url, [handle])]) == Flatten([]) + Tagged(url, [handle]);
      [Queue(url, [handle])]
    else
      var n := |queues| - 1;
      if queues[n].url == url then
        var q := Queue(url, queues[n].handles + [handle]);
        assert (queues[..n] + [q])[..n] == queues[..n];
        assert Tagged(url, q.handles) == Tagged(url, queues[n].handles) + [(url, handle)];
        queues[..n] + [q]
      else
        var r := AddHandle(queues[..n], url, handle);
        assert (r + [queues[n]])[..|r|] == r;
        r + [queues[n]]
  }

  class SqsSource {
    var queues: seq<Queue>
    var calls: seq<Deletion>

    constructor ()
      ensures queues == [] && calls == []
    {
      queues, calls := [], [];
    }

    /** One message is about to be yielded: its receipt is remembered first. */
    method Remember(url: Url, handle: Handle)
      modifies this`queues
      ensures multiset(Flatten(queues)) == old(multiset(Flatten(queues))) + multiset{(url, handle)}
    {
      queues := AddHandle(queues, url, handle);
    }

    /** The chunk loop over one queue; `count` of its receipts were deleted. */
    method DeleteQueue(q: Queue, made: nat, failsAt: Option<nat>) returns (ok: bool, made': nat, count: nat)
      modifies this`calls
      ensures count <= |q.handles| && (ok ==> count == |q.handles|)
      ensures Deleted(calls) == old(Deleted(calls)) + Tagged(q.url, q.handles[..count])
      ensures old(WithinCap(calls)) ==> WithinCap(calls)
      ensures failsAt.None? ==> ok
    {
      ok, made', count := true, made, 0;
      while count < |q.handles|
        invariant ok && count <= |q.handles|
        invariant Deleted(calls) == old(Deleted(calls)) + Tagged(q.url, q.handles[..count])
        invariant old(WithinCap(calls)) ==> WithinCap(calls)
      {
        var end := if count + BATCH_CAP < |q.handles| then count + BATCH_CAP else |q.handles|;
        if failsAt == Some(made') {
          ok := false;
          return;
        }
        made' := made' + 1;
        TaggedSplit(q.url, q.handles, count, end);
        DeletedSnoc(calls, Deletion(q.url, q.handles[count..end]));
        calls := calls + [Deletion(q.url, q.handles[count..end])];
        count := end;
      }
    }

    /**
     `commit`: every remembered receipt is deleted, each once and in order, in calls within the
     cap; if call number `failsAt` fails, the receipts stay remembered and the calls made so far
     deleted the first `count` of them.
     */
    method Commit(failsAt: Option<nat>) returns (ok: bool, ghost count: nat)
      modifies this
      ensures count <= |old(Flatten(queues))|
      ensures Deleted(calls) == old(Deleted(calls)) + old(Flatten(queues))[..count]
      ensures queues == if ok then [] else old(queues)
      ensures ok ==> count == |old(Flatten(queues))|
      ensures old(WithinCap(calls)) ==> WithinCap(calls)
      ensures failsAt.None? ==> ok
    {
      ok := true;
      var made := 0;
      for i := 0 to |queues|
        invariant ok && queues == old(queues)
        invariant Deleted(calls) == old(Deleted(calls)) + Flatten(queues[..i])
        invariant old(WithinCap(calls)) ==> WithinCap(calls)
      {
        var k;
        ok, made, k := DeleteQueue(queues[i], made, failsAt);
        ghost var part := Flatten(queues[..i]) + Tagged(queues[i].url, queues[i].handles[..k]);
        PartIsPrefix(queues, i, k);
        assert Deleted(calls) == old(Deleted(calls)) + part;
        if !ok {
          count := |part|;
          return;
        }
        assert queues[..i + 1][..i] == queues[..i] && queues[i].handles[..k] == queues[i].handles;
      }
      ghost var all := Flatten(queues);
      assert queues[..|queues|] == queues && all[..|all|] == all;
      count := |all|;
      queues := [];
    }
  }

  lemma {:induction false} PartIsPrefix(queues: seq<Queue>, i: nat, start: nat)
    requires i < |queues| && start <= |queues[i].handles|
    ensures var part := Flatten(queues[..i]) + Tagged(queues[i].url, queues[i].handles[..start]);
            |part| <= |Flatten(queues)| && part == Flatten(queues)[..|part|]
    decreases |queues|
  {
    var n := |queues| - 1;
    if i < n {
      assert queues[..n][..i] == queues[..i];
      PartIsPrefix(queues[..n], i, start);
    } else {
      TaggedSplit(queues[i].url, queues[i].handles, start, |queues[i].handles|);
      assert queues[i].handles[..|queues[i].handles|] == queues[i].handles;
    }
  }
}
