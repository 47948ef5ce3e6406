/** The sync queue: enqueue, reject and flush, where every flush suspends at each upload and any
    of them may overlap. */
module FolderSync {
  import opened Common

  datatype Reason = NetworkOffline | DeviceRevoked | SourceStale | ProjectionRejected | PartialUpload | ServerReceiptLoss

  datatype Projection = Projection(projectionId: string, version: nat, class_: string, bytes: seq<bv8>)

  datatype QueueItem = QueueItem(key: string, projectionId: string, bytes: seq<bv8>)

  datatype EnqueueResult = Queued(idempotencyKey: string) | Refused(reason: Reason)

  datatype Upload = Delivered(receiptId: string) | Failed(code: Reason)

  datatype FlushResult = FlushResult(delivered: nat, failed: nat, reason: Option<Reason>)

  /** The insertion-ordered map of queued items, and the rejected projections. */
  datatype SyncState = SyncState(queue: seq<QueueItem>, rejected: map<string, Reason>)

  function Keys(queue: seq<QueueItem>): set<string> {
    set i | 0 <= i < |queue| :: queue[i].key
  }

  ghost predicate DistinctKeys(queue: seq<QueueItem>) {
    forall i, j :: 0 <= i < j < |queue| ==> queue[i].key != queue[j].key
  }

  /** `Map.set`: a known key keeps its place. */
  function Put(queue: seq<QueueItem>, item: QueueItem): seq<QueueItem> {
    if queue == [] then [item]
    else if queue[0].key == item.key then [item] + queue[1..]
    else [queue[0]] + Put(queue[1..], item)
  }

  /** `Map.delete` */
  function Drop(queue: seq<QueueItem>, key: string): seq<QueueItem> {
    if queue == [] then []
    else if queue[0].key == key then queue[1..]
    else [queue[0]] + Drop(queue[1..], key)
  }

  function WithoutProjection(queue: seq<QueueItem>, projectionId: string): seq<QueueItem> {
    if queue == [] then []
    else
      var rest := WithoutProjection(queue[1..], projectionId);
      if queue[0].projectionId == projectionId then rest else [queue[0]] + rest
  }

  function ItemOf(key: Projection -> string, p: Projection): QueueItem {
    QueueItem(key(p), p.projectionId, p.bytes)
  }

  function Enqueue(key: Projection -> string, s: SyncState, p: Projection): (SyncState, EnqueueResult) {
    if p.projectionId in s.rejected then (s, Refused(s.rejected[p.projectionId]))
    else (s.(queue := Put(s.queue, ItemOf(key, p))), Queued(key(p)))
  }

  function Reject(s: SyncState, projectionId: string, reason: Reason): SyncState {
    SyncState(WithoutProjection(s.queue, projectionId), s.rejected[projectionId := reason])
  }

  // ---- the queue as a map ----------------------------------------------------------------

  lemma HeadTailKeys(head: QueueItem, tail: seq<QueueItem>)
    ensures Keys([head] + tail) == {head.key} + Keys(tail)
  {
    var q := [head] + tail;
    assert q[0] == head;
    assert forall i :: 0 <= i < |tail| ==> q[i + 1] == tail[i];
    forall i | 0 <= i < |tail|
      ensures tail[i].key in Keys(q)
    {
      assert q[i + 1].key in Keys(q);
    }
  }

  lemma HeadTailDistinct(head: QueueItem, tail: seq<QueueItem>)
    ensures DistinctKeys([head] + tail) <==> DistinctKeys(tail) && head.key !in Keys(tail)
  {
    var q := [head] + tail;
    assert q[0] == head && q[1..] == tail;
    if DistinctKeys(q) {
      forall i, j | 0 <= i < j < |tail|
        ensures tail[i].key != tail[j].key
      {
        assert q[i + 1].key != q[j + 1].key;
      }
      forall i | 0 <= i < |tail|
        ensures tail[i].key != head.key
      {
        assert q[0].key != q[i + 1].key;
      }
    }
    if DistinctKeys(tail) && head.key !in Keys(tail) {
      forall i, j | 0 <= i < j < |q|
        ensures q[i].key != q[j].key
      {
        assert q[j] == tail[j - 1] && tail[j - 1].key in Keys(tail);
      }
    }
  }

  lemma HeadTail(head: QueueItem, tail: seq<QueueItem>)
    ensures Keys([head] + tail) == {head.key} + Keys(tail)
    ensures DistinctKeys([head] + tail) <==> DistinctKeys(tail) && head.key !in Keys(tail)
    ensures forall x :: x in [head] + tail <==> x == head || x in tail
  {
    HeadTailKeys(head, tail);
    HeadTailDistinct(head, tail);
  }

  lemma {:induction false} PutFacts(queue: seq<QueueItem>, item: QueueItem)
    requires DistinctKeys(queue)
    ensures DistinctKeys(Put(queue, item)) && Keys(Put(queue, item)) == Keys(queue) + {item.key}
    ensures forall x :: x in Put(queue, item) <==> x == item || (x in queue && x.key != item.key)
  {
    if queue == [] {
      HeadTail(item, []);
    } else {
      var head, tail := queue[0], queue[1..];
      assert queue == [head] + tail;
      HeadTail(head, tail);
      if head.key == item.key {
        HeadTail(item, tail);
        assert forall x :: x in tail ==> x.key in Keys(tail);
      } else {
        PutFacts(tail, item);
        HeadTail(head, Put(tail, item));
      }
    }
  }

  lemma {:induction false} DropFacts(queue: seq<QueueItem>, key: string)
    requires DistinctKeys(queue)
    ensures DistinctKeys(Drop(queue, key)) && Keys(Drop(queue, key)) == Keys(queue) - {key}
    ensures forall x :: x in Drop(queue, key) <==> x in queue && x.key != key
  {
    if queue != [] {
      var head, tail := queue[0], queue[1..];
      assert queue == [head] + tail;
      HeadTail(head, tail);
      if head.key == key {
        assert forall x :: x in tail ==> x.key in Keys(tail);
      } else {
        DropFacts(tail, key);
        HeadTail(head, Drop(tail, key));
      }
    }
  }

  lemma {:induction false} WithoutFacts(queue: seq<QueueItem>, projectionId: string)
    requires DistinctKeys(queue)
    ensures DistinctKeys(WithoutProjection(queue, projectionId))
    ensures Keys(WithoutProjection(queue, projectionId)) <= Keys(queue)
    ensures forall x :: x in WithoutProjection(queue, projectionId) <==> x in queue && x.projectionId != projectionId
  {
    if queue != [] {
      var head, tail := queue[0], queue[1..];
      assert queue == [head] + tail;
      HeadTail(head, tail);
      WithoutFacts(tail, projectionId);
      HeadTail(head, WithoutProjection(tail, projectionId));
    }
  }

  /** Enqueueing never reorders: a known key is replaced in place, a new one goes to the end. */
  lemma {:induction false} PutKeepsOrder(queue: seq<QueueItem>, item: QueueItem)
    requires DistinctKeys(queue)
    ensures item.key !in Keys(queue) ==> Put(queue, item) == queue + [item]
    ensures forall i :: 0 <= i < |queue| && queue[i].key == item.key ==> Put(queue, item) == queue[i := item]
  {
    if queue != [] {
      var head, tail := queue[0], queue[1..];
      assert queue == [head] + tail;
      HeadTail(head, tail);
      PutKeepsOrder(tail, item);
      forall i | 0 <= i < |queue| && queue[i].key == item.key
        ensures Put(queue, item) == queue[i := item]
      {
        if i > 0 {
          assert tail[i - 1] == queue[i] && tail[i - 1].key in Keys(tail);
          assert queue[i := item] == [head] + tail[i - 1 := item];
        }
      }
    }
  }

  lemma {:induction false} DropAbsent(queue: seq<QueueItem>, key: string)
    requires forall i :: 0 <= i < |queue| ==> queue[i].key != key
    ensures Drop(queue, key) == queue
  {
    if queue != [] {
      DropAbsent(queue[1..], key);
      assert queue == [queue[0]] + queue[1..];
    }
  }

  lemma DropCons(head: QueueItem, tail: seq<QueueItem>, key: string)
    ensures Drop([head] + tail, key) == if head.key == key then tail else [head] + Drop(tail, key)
  {
    assert ([head] + tail)[1..] == tail;
  }

  lemma CutBehindHead(head: QueueItem, tail: seq<QueueItem>, i: nat)
    requires 0 < i <= |tail|
    ensures var queue := [head] + tail;
            queue[i] == tail[i - 1] && [head] + (tail[..i - 1] + tail[i..]) == queue[..i] + queue[i + 1..]
  {
  }

  lemma {:induction false} DropAt(queue: seq<QueueItem>, i: nat)
    requires i < |queue| && forall j :: 0 <= j < i ==> queue[j].key != queue[i].key
    ensures Drop(queue, queue[i].key) == queue[..i] + queue[i + 1..]
  {
    var head, tail := queue[0], queue[1..];
    assert queue == [head] + tail;
    DropCons(head, tail, queue[i].key);
    if i > 0 {
      CutBehindHead(head, tail, i);
      assert forall j :: 0 <= j < i - 1 ==> tail[j] == queue[j + 1];
      DropAt(tail, i - 1);
    } else {
      assert queue[..0] == [];
    }
  }

  /** Delivery takes out one item and leaves the others in place. */
  lemma DropKeepsOrder(queue: seq<QueueItem>, key: string)
    requires DistinctKeys(queue)
    ensures key !in Keys(queue) ==> Drop(queue, key) == queue
    ensures forall i :: 0 <= i < |queue| && queue[i].key == key ==> Drop(queue, key) == queue[..i] + queue[i + 1..]
  {
    if key !in Keys(queue) {
      DropAbsent(queue, key);
    }
    forall i | 0 <= i < |queue| && queue[i].key == key
      ensures Drop(queue, key) == queue[..i] + queue[i + 1..]
    {
      DropAt(queue, i);
    }
  }

  lemma WithoutCons(head: QueueItem, tail: seq<QueueItem>, projectionId: string)
    ensures WithoutProjection([head] + tail, projectionId)
            == (if head.projectionId == projectionId then [] else [head]) + WithoutProjection(tail, projectionId)
  {
    assert ([head] + tail)[1..] == tail;
  }

  lemma {:induction false} WithoutAppend(a: seq<QueueItem>, b: seq<QueueItem>, projectionId: string)
    ensures WithoutProjection(a + b, projectionId) == WithoutProjection(a, projectionId) + WithoutProjection(b, projectionId)
  {
    if a == [] {
      assert a + b == b;
    } else {
      var head, tail := a[0], a[1..];
      WithoutAppend(tail, b, projectionId);
      WithoutCons(head, tail, projectionId);
      WithoutCons(head, tail + b, projectionId);
      assert a == [head] + tail && a + b == [head] + (tail + b);
    }
  }

  lemma WithoutSnoc(visited: seq<QueueItem>, item: QueueItem, projectionId: string)
    ensures WithoutProjection(visited + [item], projectionId)
            == WithoutProjection(visited, projectionId) + if item.projectionId == projectionId then [] else [item]
  {
    WithoutAppend(visited, [item], projectionId);
    WithoutCons(item, [], projectionId);
    assert [item] + [] == [item];
  }

  lemma DropMiddle(kept: seq<QueueItem>, item: QueueItem, left: seq<QueueItem>)
    requires DistinctKeys(kept + [item] + left)
    ensures Drop(kept + [item] + left, item.key) == kept + left
  {
    var queue := kept + [item] + left;
    DropKeepsOrder(queue, item.key);
    assert queue[|kept|] == item;
    assert queue[..|kept|] == kept && queue[|kept| + 1..] == left;
  }

  /** One turn of the deleting loop: what was visited is filtered, what is left stands behind it. */
  lemma DropVisited(visited: seq<QueueItem>, item: QueueItem, left: seq<QueueItem>, projectionId: string)
    requires DistinctKeys(WithoutProjection(visited, projectionId) + [item] + left)
    ensures var queue := WithoutProjection(visited, projectionId) + [item] + left;
            (if item.projectionId == projectionId then Drop(queue, item.key) else queue)
            == WithoutProjection(visited + [item], projectionId) + left
  {
    WithoutSnoc(visited, item, projectionId);
    DropMiddle(WithoutProjection(visited, projectionId), item, left);
  }

  /** The deleting loop after `n` entries. */
  ghost predicate Visited(entries: seq<QueueItem>, n: nat, queue: seq<QueueItem>, projectionId: string) {
    n <= |entries| && DistinctKeys(queue) && queue == WithoutProjection(entries[..n], projectionId) + entries[n..]
  }

  lemma VisitedNone(entries: seq<QueueItem>, projectionId: string)
    requires DistinctKeys(entries)
    ensures Visited(entries, 0, entries, projectionId)
  {
    assert entries[..0] == [] && entries[0..] == entries;
  }

  lemma DropTurn(entries: seq<QueueItem>, n: nat, queue: seq<QueueItem>, projectionId: string)
    requires n < |entries| && Visited(entries, n, queue, projectionId)
    ensures var next := if entries[n].projectionId == projectionId then Drop(queue, entries[n].key) else queue;
            Visited(entries, n + 1, next, projectionId)
  {
    var item, left := entries[n], entries[n + 1..];
    assert entries[n..] == [item] + left && entries[..n + 1] == entries[..n] + [item];
    assert queue == WithoutProjection(entries[..n], projectionId) + [item] + left;
    DropVisited(entries[..n], item, left, projectionId);
    DropFacts(queue, item.key);
  }

  lemma VisitedAll(entries: seq<QueueItem>, queue: seq<QueueItem>, projectionId: string)
    requires Visited(entries, |entries|, queue, projectionId)
    ensures queue == WithoutProjection(entries, projectionId)
  {
    assert entries[..|entries|] == entries && entries[|entries|..] == [];
  }

  // ---- the service -----------------------------------------------------------------------

  class FolderSyncService {
    const key: Projection -> string
    var queue: seq<QueueItem>
    var rejected: map<string, Reason>
    var autoReroute: bool

    constructor (key: Projection -> string)
      ensures this.key == key && State() == SyncState([], map[]) && !autoReroute && DistinctKeys(queue)
    {
      this.key := key;
      queue, rejected, autoReroute := [], map[], false;
    }

    function State(): SyncState
      reads this
    {
      SyncState(queue, rejected)
    }

    method EnqueueApprovedProjection(p: Projection) returns (r: EnqueueResult)
      requires DistinctKeys(queue)
      modifies this`queue
      ensures (State(), r) == Enqueue(key, old(State()), p) && DistinctKeys(queue)
    {
      if p.projectionId in rejected {
        return Refused(rejected[p.projectionId]);
      }
      var idempotencyKey := key(p);
      PutFacts(queue, QueueItem(idempotencyKey, p.projectionId, p.bytes));
      queue := Put(queue, QueueItem(idempotencyKey, p.projectionId, p.bytes));
      return Queued(idempotencyKey);
    }

    /** Remembers the reason and deletes the projection's items entry by entry: none of them is
        left, every other item is and keeps its place. */
    method MarkProjectionRejected(projectionId: string, reason: Reason)
      requires DistinctKeys(queue)
      modifies this`queue, this`rejected
      ensures State() == Reject(old(State()), projectionId, reason) && DistinctKeys(queue)
      ensures forall x :: x in queue <==> x in old(queue) && x.projectionId != projectionId
    {
      rejected := rejected[projectionId := reason];
      var entries := queue;
      VisitedNone(entries, projectionId);
      for n := 0 to |entries|
        invariant Visited(entries, n, queue, projectionId)
        invariant rejected == old(rejected)[projectionId := reason]
      {
        DropTurn(entries, n, queue, projectionId);
        if entries[n].projectionId == projectionId {
          queue := Drop(queue, entries[n].key);
        }
      }
      VisitedAll(entries, queue, projectionId);
      WithoutFacts(entries, projectionId);
    }

    /** A flush nothing overlaps, against a server answering upload `n` with `answers(n)`: it
        sends the items in insertion order, delivers a prefix of the queue, stops at the first
        failure, and keeps everything from there on unchanged. */
    method Flush(answers: nat -> Upload) returns (r: FlushResult, ghost sent: seq<QueueItem>)
      requires DistinctKeys(queue)
      modifies this`queue, this`autoReroute
      ensures r.delivered <= |old(queue)| && queue == old(queue)[r.delivered..]
      ensures sent <= old(queue) && |sent| == r.delivered + r.failed
      ensures forall n :: 0 <= n < r.delivered ==> answers(n).Delivered?
      ensures if r.delivered == |old(queue)| then r.failed == 0 && r.reason == None
              else r.failed == 1 && r.reason.Some? && answers(r.delivered) == Failed(r.reason.value)
      ensures old(!autoReroute) ==> !autoReroute
      ensures DistinctKeys(queue)
    {
      var delivered, failed := 0, 0;
      var reason: Option<Reason> := None;
      var snapshot := queue;
      sent := [];
      for n := 0 to |snapshot|
        invariant delivered == n && failed == 0 && reason == None
        invariant queue == snapshot[n..] && autoReroute == old(autoReroute)
        invariant sent == snapshot[..n]
        invariant forall m :: 0 <= m < n ==> answers(m).Delivered?
      {
        var item := snapshot[n];
        sent := sent + [item];
        var result := answers(n);
        if result.Delivered? {
          queue := Drop(queue, item.key);
          delivered := delivered + 1;
        } else {
          failed := failed + 1;
          reason := Some(result.code);
          autoReroute := false;
          return FlushResult(delivered, failed, reason), sent;
        }
      }
      return FlushResult(delivered, failed, reason), sent;
    }
  }

  // ---- every interleaving ----------------------------------------------------------------

  /** A flush under way: its snapshot, the item whose upload it awaits, and (for the claims only)
      the projections already rejected when it began. */
  datatype FlushRun = FlushRun(snapshot: seq<QueueItem>, position: nat, rejectedBefore: set<string>)

  /** The service, its flushes under way, and what callers and the server have seen: every item
      answered QUEUED, and every item whose upload the server accepted. */
  datatype World = World(
    state: SyncState,
    flushes: map<nat, FlushRun>,
    answered: set<QueueItem>,
    accepted: set<QueueItem>)

  datatype Step =
    | EnqueueStep(projection: Projection)
    | RejectStep(projectionId: string, reason: Reason)
    | BeginFlush(ticket: nat)
    | UploadReturns(ticket: nat, result: Upload)

  const EMPTY := World(SyncState([], map[]), map[], {}, {})

  /** A flush goes on to its next item, or is over. */
  function Advance(flushes: map<nat, FlushRun>, ticket: nat, f: FlushRun): map<nat, FlushRun> {
    if f.position < |f.snapshot| then flushes[ticket := f] else flushes - {ticket}
  }

  function Next(key: Projection -> string, w: World, step: Step): World {
    match step
    case EnqueueStep(p) =>
      var (s, r) := Enqueue(key, w.state, p);
      w.(state := s, answered := w.answered + if r.Queued? then {ItemOf(key, p)} else {})
    case RejectStep(projectionId, reason) =>
      w.(state := Reject(w.state, projectionId, reason))
    case BeginFlush(ticket) =>
      if ticket in w.flushes then w
      else w.(flushes := Advance(w.flushes, ticket, FlushRun(w.state.queue, 0, w.state.rejected.Keys)))
    case UploadReturns(ticket, result) =>
      if ticket !in w.flushes || w.flushes[ticket].position >= |w.flushes[ticket].snapshot| then w
      else
        var f := w.flushes[ticket];
        var item := f.snapshot[f.position];
        if result.Delivered? then
          w.(state := w.state.(queue := Drop(w.state.queue, item.key)),
             flushes := Advance(w.flushes, ticket, f.(position := f.position + 1)),
             accepted := w.accepted + {item})
        else w.(flushes := w.flushes - {ticket})
  }

  function Play(key: Projection -> string, steps: seq<Step>): World {
    if steps == [] then EMPTY else Next(key, Play(key, steps[..|steps| - 1]), steps[|steps| - 1])
  }

  /** The promise for one answered key: it is still queued, the server accepted it, or it was
      answered for a projection that has been rejected since. */
  ghost predicate KeyKept(w: World, key: string) {
    || key in Keys(w.state.queue)
    || (exists x :: x in w.accepted && x.key == key)
    || exists x :: x in w.answered && x.key == key && x.projectionId in w.state.rejected
  }

  /** The promise for one answered item: these bytes of this projection are still queued, the
      server accepted them, or this very projection has been rejected. */
  ghost predicate ItemKept(w: World, x: QueueItem) {
    x in w.state.queue || x in w.accepted || x.projectionId in w.state.rejected
  }

  /** Another item was answered under the same key, so it may have taken this one's place. */
  ghost predicate SharesKey(w: World, x: QueueItem) {
    exists y :: y in w.answered && y.key == x.key && y != x
  }

  ghost predicate Conserved(w: World) {
    && DistinctKeys(w.state.queue)
    && (forall x :: x in w.answered ==> KeyKept(w, x.key))
    && (forall x :: x in w.answered ==> ItemKept(w, x) || SharesKey(w, x))
    && (forall x :: x in w.state.queue ==> x.projectionId !in w.state.rejected && x in w.answered)
    && (forall t, x :: t in w.flushes && x in w.flushes[t].snapshot ==> x in w.answered)
  }

  lemma QueuedKeyHasItem(queue: seq<QueueItem>, key: string)
    requires key in Keys(queue)
    ensures exists x :: x in queue && x.key == key
  {
    var i :| 0 <= i < |queue| && queue[i].key == key;
    assert queue[i] in queue;
  }

  lemma ItemHasKey(queue: seq<QueueItem>, x: QueueItem)
    requires x in queue
    ensures x.key in Keys(queue)
  {
  }

  lemma EnqueueConserves(key: Projection -> string, w: World, p: Projection)
    requires Conserved(w)
    ensures Conserved(Next(key, w, EnqueueStep(p)))
  {
    var w' := Next(key, w, EnqueueStep(p));
    if p.projectionId !in w.state.rejected {
      var item := ItemOf(key, p);
      PutFacts(w.state.queue, item);
      forall x | x in w'.answered
        ensures KeyKept(w', x.key) && (ItemKept(w', x) || SharesKey(w', x))
      {
        if x.key == item.key {
          assert item in w'.answered;
        } else {
          assert x in w.answered && KeyKept(w, x.key);
          assert SharesKey(w, x) ==> SharesKey(w', x);
        }
      }
    }
  }

  lemma RejectKeepsKey(key: Projection -> string, w: World, projectionId: string, reason: Reason, k: string)
    requires Conserved(w) && KeyKept(w, k)
    ensures KeyKept(Next(key, w, RejectStep(projectionId, reason)), k)
  {
    var w' := Next(key, w, RejectStep(projectionId, reason));
    WithoutFacts(w.state.queue, projectionId);
    if k in Keys(w.state.queue) {
      QueuedKeyHasItem(w.state.queue, k);
      var item :| item in w.state.queue && item.key == k;
      if item.projectionId != projectionId {
        ItemHasKey(w'.state.queue, item);
      } else {
        assert item in w'.answered && projectionId in w'.state.rejected;
      }
    }
  }

  lemma RejectConserves(key: Projection -> string, w: World, projectionId: string, reason: Reason)
    requires Conserved(w)
    ensures Conserved(Next(key, w, RejectStep(projectionId, reason)))
  {
    var w' := Next(key, w, RejectStep(projectionId, reason));
    WithoutFacts(w.state.queue, projectionId);
    forall x | x in w'.answered
      ensures KeyKept(w', x.key) && (ItemKept(w', x) || SharesKey(w', x))
    {
      RejectKeepsKey(key, w, projectionId, reason, x.key);
      assert SharesKey(w, x) ==> SharesKey(w', x);
    }
  }

  lemma UploadConserves(key: Projection -> string, w: World, ticket: nat, result: Upload)
    requires Conserved(w)
    ensures Conserved(Next(key, w, UploadReturns(ticket, result)))
  {
    var w' := Next(key, w, UploadReturns(ticket, result));
    if ticket in w.flushes && w.flushes[ticket].position < |w.flushes[ticket].snapshot| && result.Delivered? {
      var item := w.flushes[ticket].snapshot[w.flushes[ticket].position];
      assert item in w.flushes[ticket].snapshot && item in w.answered;
      DropFacts(w.state.queue, item.key);
      forall x | x in w'.answered
        ensures KeyKept(w', x.key) && (ItemKept(w', x) || SharesKey(w', x))
      {
        assert KeyKept(w, x.key);
        assert item in w'.accepted;
        assert SharesKey(w, x) ==> SharesKey(w', x);
        if x.key == item.key && x != item {
          assert SharesKey(w', x);
        }
      }
    }
  }

  lemma BeginConserves(key: Projection -> string, w: World, ticket: nat)
    requires Conserved(w)
    ensures Conserved(Next(key, w, BeginFlush(ticket)))
  {
    var w' := Next(key, w, BeginFlush(ticket));
    forall x | x in w'.answered
      ensures KeyKept(w', x.key) && (ItemKept(w', x) || SharesKey(w', x))
    {
      assert KeyKept(w, x.key);
      assert SharesKey(w, x) ==> SharesKey(w', x);
    }
  }

  /** In every interleaving of enqueues, rejections and any number of overlapping flushes: each
      key ever answered QUEUED is still queued, accepted by the server, or was answered for a
      projection rejected since; so is each item, down to its projection and bytes, unless another
      item shares its key; and no queued item belongs to a rejected projection. */
  lemma {:induction false} NothingQueuedIsLost(key: Projection -> string, steps: seq<Step>)
    ensures Conserved(Play(key, steps))
  {
    if steps != [] {
      var w := Play(key, steps[..|steps| - 1]);
      NothingQueuedIsLost(key, steps[..|steps| - 1]);
      match steps[|steps| - 1]
      case EnqueueStep(p) => EnqueueConserves(key, w, p);
      case RejectStep(projectionId, reason) => RejectConserves(key, w, projectionId, reason);
      case BeginFlush(ticket) => BeginConserves(key, w, ticket);
      case UploadReturns(ticket, result) => UploadConserves(key, w, ticket, result);
    }
  }

  // ---- why a projection is refused -------------------------------------------------------

  /** Step `i` rejects the projection for this reason, and no later one rejects it again. */
  ghost predicate LastRejection(steps: seq<Step>, i: int, projectionId: string, reason: Reason) {
    && 0 <= i < |steps| && steps[i] == RejectStep(projectionId, reason)
    && forall j :: i < j < |steps| ==> !Rejects(steps[j], projectionId)
  }

  predicate Rejects(step: Step, projectionId: string) {
    step.RejectStep? && step.projectionId == projectionId
  }

  lemma {:induction false} RejectedByLast(key: Projection -> string, steps: seq<Step>, projectionId: string)
    ensures match LastReason(steps, projectionId)
            case None => projectionId !in Play(key, steps).state.rejected
            case Some((i, reason)) =>
              && LastRejection(steps, i, projectionId, reason)
              && projectionId in Play(key, steps).state.rejected && Play(key, steps).state.rejected[projectionId] == reason
  {
    if steps != [] {
      RejectedByLast(key, steps[..|steps| - 1], projectionId);
    }
  }

  /** The last rejection of a projection, with its place. */
  ghost function LastReason(steps: seq<Step>, projectionId: string): (r: Option<(int, Reason)>)
    ensures r.None? ==> forall i :: 0 <= i < |steps| ==> !Rejects(steps[i], projectionId)
  {
    if steps == [] then None
    else if Rejects(steps[|steps| - 1], projectionId) then Some((|steps| - 1, steps[|steps| - 1].reason))
    else LastReason(steps[..|steps| - 1], projectionId)
  }

  lemma OneLastRejection(steps: seq<Step>, i: int, j: int, projectionId: string, r: Reason, q: Reason)
    requires LastRejection(steps, i, projectionId, r) && LastRejection(steps, j, projectionId, q)
    ensures r == q
  {
    assert Rejects(steps[i], projectionId) && Rejects(steps[j], projectionId);
  }

  /** After any interleaving, enqueueing a projection is refused if and only if it was rejected, with
      the reason of its last rejection; otherwise it is queued under its key. */
  lemma EnqueueRefusedIff(key: Projection -> string, steps: seq<Step>, p: Projection, reason: Reason)
    ensures var (after, r) := Enqueue(key, Play(key, steps).state, p);
            && (r == Refused(reason) <==> exists i :: LastRejection(steps, i, p.projectionId, reason))
            && (r == Queued(key(p)) <==> forall i :: 0 <= i < |steps| ==> !Rejects(steps[i], p.projectionId))
            && (r.Refused? ==> after == Play(key, steps).state)
            && (r.Queued? ==> after.rejected == Play(key, steps).state.rejected
                              && QueueItem(key(p), p.projectionId, p.bytes) in after.queue)
  {
    RejectedByLast(key, steps, p.projectionId);
    var last := LastReason(steps, p.projectionId);
    if last.Some? {
      var (i, given) := last.value;
      assert Rejects(steps[i], p.projectionId);
      forall j, r | LastRejection(steps, j, p.projectionId, r)
        ensures r == given
      {
        OneLastRejection(steps, i, j, p.projectionId, given, r);
      }
    } else {
      NothingQueuedIsLost(key, steps);
      PutFacts(Play(key, steps).state.queue, ItemOf(key, p));
    }
  }

  // ---- when no item is lost --------------------------------------------------------------

  /** Projections with one key are the same item. */
  ghost predicate SeparatesItems(key: Projection -> string) {
    forall p: Projection, q: Projection :: key(p) == key(q) ==> ItemOf(key, p) == ItemOf(key, q)
  }

  ghost predicate AllItemsKept(w: World) {
    forall x :: x in w.answered ==> ItemKept(w, x)
  }

  /** Step `i` enqueues `p`, which was not rejected then. */
  ghost predicate QueuesAt(steps: seq<Step>, i: int, p: Projection) {
    && 0 <= i < |steps| && steps[i] == EnqueueStep(p)
    && forall j :: 0 <= j < i ==> !Rejects(steps[j], p.projectionId)
  }

  lemma QueuesEarlier(steps: seq<Step>, i: int, p: Projection)
    requires steps != [] && i < |steps| - 1
    ensures QueuesAt(steps, i, p) <==> QueuesAt(steps[..|steps| - 1], i, p)
  {
  }

  ghost predicate NeverRejects(steps: seq<Step>, projectionId: string) {
    forall i :: 0 <= i < |steps| ==> !Rejects(steps[i], projectionId)
  }

  lemma QueuedIffNeverRejected(key: Projection -> string, steps: seq<Step>, p: Projection)
    ensures Enqueue(key, Play(key, steps).state, p).1.Queued? <==> NeverRejects(steps, p.projectionId)
  {
    EnqueueRefusedIff(key, steps, p, ProjectionRejected);
  }

  lemma QueuesLast(init: seq<Step>, p: Projection)
    ensures QueuesAt(init + [EnqueueStep(p)], |init|, p) <==> NeverRejects(init, p.projectionId)
  {
    var steps := init + [EnqueueStep(p)];
    assert forall j :: 0 <= j < |init| ==> steps[j] == init[j];
  }

  ghost predicate WasQueued(key: Projection -> string, steps: seq<Step>, x: QueueItem) {
    exists i, p :: QueuesAt(steps, i, p) && x == ItemOf(key, p)
  }

  lemma WasQueuedSnoc(key: Projection -> string, steps: seq<Step>, x: QueueItem)
    requires steps != []
    ensures var last := steps[|steps| - 1];
            WasQueued(key, steps, x)
            <==> || WasQueued(key, steps[..|steps| - 1], x)
                 || (last.EnqueueStep? && QueuesAt(steps, |steps| - 1, last.projection) && x == ItemOf(key, last.projection))
  {
    var init := steps[..|steps| - 1];
    if WasQueued(key, steps, x) {
      var i, p :| QueuesAt(steps, i, p) && x == ItemOf(key, p);
      if i < |init| {
        QueuesEarlier(steps, i, p);
      }
    }
    if WasQueued(key, init, x) {
      var i, p :| QueuesAt(init, i, p) && x == ItemOf(key, p);
      QueuesEarlier(steps, i, p);
    }
  }

  /** The items answered QUEUED are those enqueued while their projection was not rejected. */
  lemma {:induction false} AnsweredWereQueued(key: Projection -> string, steps: seq<Step>, x: QueueItem)
    ensures x in Play(key, steps).answered <==> WasQueued(key, steps, x)
  {
    if steps != [] {
      AnsweredWereQueued(key, steps[..|steps| - 1], x);
      WasQueuedSnoc(key, steps, x);
      var last := steps[|steps| - 1];
      if last.EnqueueStep? {
        var p, init := last.projection, steps[..|steps| - 1];
        assert steps == init + [EnqueueStep(p)];
        QueuesLast(init, p);
        QueuedIffNeverRejected(key, init, p);
      }
    }
  }

  lemma AnsweredAreItems(key: Projection -> string, steps: seq<Step>)
    ensures forall x :: x in Play(key, steps).answered ==> exists p :: x == ItemOf(key, p)
  {
    forall x | x in Play(key, steps).answered
      ensures exists p :: x == ItemOf(key, p)
    {
      AnsweredWereQueued(key, steps, x);
    }
  }

  /** Two different items under one key, enqueued one after the other: the second takes the
      place of the first. */
  lemma SharedKeyLosesFirst(key: Projection -> string, p: Projection, q: Projection) returns (steps: seq<Step>)
    requires key(p) == key(q) && ItemOf(key, p) != ItemOf(key, q)
    ensures !AllItemsKept(Play(key, steps))
  {
    var first := [EnqueueStep(p)];
    steps := first + [EnqueueStep(q)];
    PlaySnoc(key, [], EnqueueStep(p));
    assert [] + [EnqueueStep(p)] == first;
    PlaySnoc(key, first, EnqueueStep(q));
    var x, y := ItemOf(key, p), ItemOf(key, q);
    var w := Play(key, steps);
    assert Put([], x) == [x] && [x][1..] == [] && Put([x], y) == [y] + [];
    assert w.state.queue == [y] && x in w.answered && x != y;
    assert !ItemKept(w, x);
  }

  lemma PlaySnoc(key: Projection -> string, steps: seq<Step>, step: Step)
    ensures Play(key, steps + [step]) == Next(key, Play(key, steps), step)
  {
    assert (steps + [step])[..|steps|] == steps;
  }

  /** No run ever loses an item if and only if the key tells items apart. */
  lemma NoItemIsLostIff(key: Projection -> string)
    ensures (forall steps :: AllItemsKept(Play(key, steps))) <==> SeparatesItems(key)
  {
    if SeparatesItems(key) {
      forall steps
        ensures AllItemsKept(Play(key, steps))
      {
        NothingQueuedIsLost(key, steps);
        AnsweredAreItems(key, steps);
        var w := Play(key, steps);
        forall x | x in w.answered
          ensures !SharesKey(w, x)
        {
          forall y | y in w.answered && y.key == x.key
            ensures y == x
          {
            var p :| x == ItemOf(key, p);
            var q :| y == ItemOf(key, q);
            assert key(p) == key(q);
          }
        }
      }
    } else {
      var p, q :| key(p) == key(q) && ItemOf(key, p) != ItemOf(key, q);
      var steps := SharedKeyLosesFirst(key, p, q);
    }
  }

  // ---- rejection against a flush under way -----------------------------------------------

  /** What a flush is about to send had not been rejected when the flush began. */
  ghost predicate SnapshotsClean(w: World) {
    forall t :: t in w.flushes ==>
      forall x :: x in w.flushes[t].snapshot ==> x.projectionId !in w.flushes[t].rejectedBefore
  }

  /** A flush only ever sends items of projections that were not rejected when it took its
      snapshot, however it is overlapped. */
  lemma {:induction false} FlushSendsNothingRejectedBefore(key: Projection -> string, steps: seq<Step>)
    ensures SnapshotsClean(Play(key, steps))
  {
    if steps != [] {
      FlushSendsNothingRejectedBefore(key, steps[..|steps| - 1]);
      NothingQueuedIsLost(key, steps[..|steps| - 1]);
    }
  }

  /** The upload a step starts, if any. */
  function Started(w: World, step: Step): Option<QueueItem> {
    match step
    case EnqueueStep(_) => None
    case RejectStep(_, _) => None
    case BeginFlush(ticket) =>
      if ticket !in w.flushes && w.state.queue != [] then Some(w.state.queue[0]) else None
    case UploadReturns(ticket, result) =>
      if ticket in w.flushes && result.Delivered? && w.flushes[ticket].position + 1 < |w.flushes[ticket].snapshot|
      then Some(w.flushes[ticket].snapshot[w.flushes[ticket].position + 1]) else None
  }

  /** The step made flush `t` await the upload of `item`. */
  ghost predicate AwaitsNew(w: World, after: World, t: nat, item: QueueItem) {
    && t in after.flushes && (t in w.flushes ==> after.flushes[t] != w.flushes[t])
    && after.flushes[t].position < |after.flushes[t].snapshot|
    && after.flushes[t].snapshot[after.flushes[t].position] == item
  }

  /** A step starts an upload if and only if it makes some flush await it. */
  lemma StartedIsAwaited(key: Projection -> string, w: World, step: Step, item: QueueItem)
    ensures Started(w, step) == Some(item) <==> exists t :: AwaitsNew(w, Next(key, w, step), t, item)
  {
    var after := Next(key, w, step);
    if Started(w, step) == Some(item) {
      assert AwaitsNew(w, after, step.ticket, item);
    }
  }

  function Continue(key: Projection -> string, w: World, steps: seq<Step>): World {
    if steps == [] then w else Next(key, Continue(key, w, steps[..|steps| - 1]), steps[|steps| - 1])
  }

  /** The last of these steps starts an upload for the projection. */
  ghost predicate EndsSending(key: Projection -> string, w: World, steps: seq<Step>, projectionId: string) {
    && steps != []
    && var item := Started(Continue(key, w, steps[..|steps| - 1]), steps[|steps| - 1]);
       item.Some? && item.value.projectionId == projectionId
  }

  /** The flush still has an item of the projection ahead of the one it awaits. */
  ghost predicate HasAhead(f: FlushRun, projectionId: string) {
    exists j :: f.position < j < |f.snapshot| && f.snapshot[j].projectionId == projectionId
  }

  /** Rejected, and nowhere left to be sent from. */
  ghost predicate Gone(w: World, projectionId: string) {
    && DistinctKeys(w.state.queue)
    && projectionId in w.state.rejected
    && (forall x :: x in w.state.queue ==> x.projectionId != projectionId)
    && (forall t :: t in w.flushes ==> !HasAhead(w.flushes[t], projectionId))
  }

  lemma StaysGone(key: Projection -> string, w: World, step: Step, projectionId: string)
    requires Gone(w, projectionId)
    ensures Gone(Next(key, w, step), projectionId)
    ensures Started(w, step).Some? ==> Started(w, step).value.projectionId != projectionId
  {
    match step
    case EnqueueStep(p) => PutFacts(w.state.queue, ItemOf(key, p));
    case RejectStep(other, reason) => WithoutFacts(w.state.queue, other);
    case BeginFlush(ticket) =>
      assert w.state.queue != [] ==> w.state.queue[0] in w.state.queue;
    case UploadReturns(ticket, result) =>
      if ticket in w.flushes && w.flushes[ticket].position < |w.flushes[ticket].snapshot| {
        var f := w.flushes[ticket];
        DropFacts(w.state.queue, f.snapshot[f.position].key);
        var g := f.(position := f.position + 1);
        assert HasAhead(g, projectionId) ==> HasAhead(f, projectionId);
        assert !HasAhead(f, projectionId);
      }
  }

  lemma {:induction false} GoneIsNeverSent(key: Projection -> string, w: World, steps: seq<Step>, projectionId: string)
    requires Gone(w, projectionId)
    ensures Gone(Continue(key, w, steps), projectionId) && !EndsSending(key, w, steps, projectionId)
  {
    if steps != [] {
      var init := steps[..|steps| - 1];
      GoneIsNeverSent(key, w, init, projectionId);
      StaysGone(key, Continue(key, w, init), steps[|steps| - 1], projectionId);
    }
  }

  function Deliveries(ticket: nat, n: nat): seq<Step> {
    if n == 0 then [] else Deliveries(ticket, n - 1) + [UploadReturns(ticket, Delivered(""))]
  }

  lemma DeliveriesSnoc(ticket: nat, n: nat)
    requires n > 0
    ensures var steps := Deliveries(ticket, n);
            && steps != [] && steps[..|steps| - 1] == Deliveries(ticket, n - 1)
            && steps[|steps| - 1] == UploadReturns(ticket, Delivered(""))
  {
  }

  /** A flush whose uploads succeed walks on through its snapshot. */
  lemma {:induction false} DeliveriesAdvance(key: Projection -> string, w: World, ticket: nat, n: nat)
    requires ticket in w.flushes && w.flushes[ticket].position + n < |w.flushes[ticket].snapshot|
    ensures var after := Continue(key, w, Deliveries(ticket, n));
            && ticket in after.flushes
            && after.flushes[ticket] == w.flushes[ticket].(position := w.flushes[ticket].position + n)
  {
    if n > 0 {
      DeliveriesAdvance(key, w, ticket, n - 1);
      DeliveriesSnoc(ticket, n);
    }
  }

  ghost function Items(queue: seq<QueueItem>): set<QueueItem> {
    set x | x in queue
  }

  /** Where a flush nobody overlaps stands after `n` deliveries. */
  ghost predicate Drained(w: World, after: World, ticket: nat, n: nat)
    requires n <= |w.state.queue|
  {
    && after.state == w.state.(queue := w.state.queue[n..])
    && after.answered == w.answered
    && after.accepted == w.accepted + Items(w.state.queue[..n])
    && after.flushes == if n < |w.state.queue|
                        then w.flushes[ticket := FlushRun(w.state.queue, n, w.state.rejected.Keys)] else w.flushes
  }

  lemma ContinueSnoc(key: Projection -> string, w: World, steps: seq<Step>, step: Step)
    ensures Continue(key, w, steps + [step]) == Next(key, Continue(key, w, steps), step)
  {
    assert (steps + [step])[..|steps|] == steps;
  }

  lemma DrainNone(key: Projection -> string, w: World, ticket: nat)
    requires ticket !in w.flushes
    ensures Drained(w, Next(key, w, BeginFlush(ticket)), ticket, 0)
  {
    assert w.state.queue[0..] == w.state.queue;
    assert w.flushes - {ticket} == w.flushes;
  }

  lemma DrainStep(key: Projection -> string, w: World, now: World, ticket: nat, n: nat)
    requires DistinctKeys(w.state.queue) && ticket !in w.flushes && n < |w.state.queue| && Drained(w, now, ticket, n)
    ensures Drained(w, Next(key, now, UploadReturns(ticket, Delivered(""))), ticket, n + 1)
  {
    DrainOne(w.state.queue, n);
  }

  /** Nobody overlapping, the steps of a flush are the flush: `n` deliveries take the first `n` items
      out of the queue and into what the server accepted, and nothing else changes. */
  lemma {:induction false} DeliveriesDrain(key: Projection -> string, w: World, ticket: nat, n: nat)
    requires DistinctKeys(w.state.queue) && ticket !in w.flushes && n <= |w.state.queue|
    ensures Drained(w, Continue(key, Next(key, w, BeginFlush(ticket)), Deliveries(ticket, n)), ticket, n)
  {
    if n == 0 {
      DrainNone(key, w, ticket);
    } else {
      DeliveriesDrain(key, w, ticket, n - 1);
      var began, earlier := Next(key, w, BeginFlush(ticket)), Deliveries(ticket, n - 1);
      DrainStep(key, w, Continue(key, began, earlier), ticket, n - 1);
      ContinueSnoc(key, began, earlier, UploadReturns(ticket, Delivered("")));
    }
  }

  lemma DrainOne(queue: seq<QueueItem>, n: nat)
    requires DistinctKeys(queue) && n < |queue|
    ensures Drop(queue[n..], queue[n].key) == queue[n + 1..]
    ensures Items(queue[..n + 1]) == Items(queue[..n]) + {queue[n]}
  {
    assert queue[n..][0] == queue[n] && queue[n..][1..] == queue[n + 1..];
    assert queue[..n + 1] == queue[..n] + [queue[n]];
  }

  /** A failed upload ends its flush and changes nothing else. */
  lemma FailureStops(key: Projection -> string, w: World, ticket: nat, code: Reason)
    requires ticket in w.flushes && w.flushes[ticket].position < |w.flushes[ticket].snapshot|
    ensures Next(key, w, UploadReturns(ticket, Failed(code))) == w.(flushes := w.flushes - {ticket})
  {
  }

  lemma EndsSendingSnoc(key: Projection -> string, w: World, steps: seq<Step>, step: Step, item: QueueItem)
    requires Started(Continue(key, w, steps), step) == Some(item)
    ensures EndsSending(key, w, steps + [step], item.projectionId)
  {
    assert (steps + [step])[..|steps|] == steps;
  }

  lemma AwaitedIsNext(w: World, ticket: nat, f: FlushRun, receipt: string)
    requires ticket in w.flushes && w.flushes[ticket] == f && f.position + 1 < |f.snapshot|
    ensures Started(w, UploadReturns(ticket, Delivered(receipt))) == Some(f.snapshot[f.position + 1])
  {
  }

  lemma DeliveriesSend(key: Projection -> string, w: World, ticket: nat, n: nat)
    requires n > 0 && ticket in w.flushes && w.flushes[ticket].position + n < |w.flushes[ticket].snapshot|
    ensures var f := w.flushes[ticket];
            EndsSending(key, w, Deliveries(ticket, n), f.snapshot[f.position + n].projectionId)
  {
    var f := w.flushes[ticket];
    var init, before := Deliveries(ticket, n - 1), f.(position := f.position + (n - 1));
    DeliveriesAdvance(key, w, ticket, n - 1);
    AwaitedIsNext(Continue(key, w, init), ticket, before, "");
    EndsSendingSnoc(key, w, init, UploadReturns(ticket, Delivered("")), f.snapshot[f.position + n]);
  }

  lemma AheadIsSent(key: Projection -> string, w: World, ticket: nat, projectionId: string) returns (steps: seq<Step>)
    requires ticket in w.flushes && HasAhead(w.flushes[ticket], projectionId)
    ensures EndsSending(key, w, steps, projectionId)
  {
    var f := w.flushes[ticket];
    var j :| f.position < j < |f.snapshot| && f.snapshot[j].projectionId == projectionId;
    steps := Deliveries(ticket, j - f.position);
    DeliveriesSend(key, w, ticket, j - f.position);
    assert f.position + (j - f.position) == j;
  }

  /** "A rejected projection is never sent" exactly: after a rejection, in whatever state it
      comes, some continuation starts an upload for the projection if and only if a flush already
      under way has an item of it ahead. */
  lemma RejectedIsSentIff(key: Projection -> string, w: World, projectionId: string, reason: Reason)
    requires DistinctKeys(w.state.queue)
    ensures (exists steps :: EndsSending(key, Next(key, w, RejectStep(projectionId, reason)), steps, projectionId))
            <==> exists t :: t in w.flushes && HasAhead(w.flushes[t], projectionId)
  {
    var after := Next(key, w, RejectStep(projectionId, reason));
    if t :| t in w.flushes && HasAhead(w.flushes[t], projectionId) {
      var steps := AheadIsSent(key, after, t, projectionId);
    } else {
      WithoutFacts(w.state.queue, projectionId);
      forall steps
        ensures !EndsSending(key, after, steps, projectionId)
      {
        GoneIsNeverSent(key, after, steps, projectionId);
      }
    }
  }

  /** An instance from the start: while the upload of the first item is awaited, rejecting
      the second projection empties the queue of it, and it is still the next item sent. */
  lemma RejectedDuringFlushIsStillSent(key: Projection -> string, p: Projection, q: Projection, reason: Reason, receipt: string)
    requires key(p) != key(q) && p.projectionId != q.projectionId
    ensures var w := Next(key, Next(key, Next(key, Next(key, Next(key, EMPTY, EnqueueStep(p)), EnqueueStep(q)), BeginFlush(0)),
                                    RejectStep(q.projectionId, reason)), UploadReturns(0, Delivered(receipt)));
            && q.projectionId in w.state.rejected && w.state.queue == []
            && 0 in w.flushes && w.flushes[0].snapshot[w.flushes[0].position].projectionId == q.projectionId
  {
    var x, y := ItemOf(key, p), ItemOf(key, q);
    var w := Next(key, Next(key, EMPTY, EnqueueStep(p)), EnqueueStep(q));
    assert Put([], x) == [x] && [x][1..] == [] && Put([x], y) == [x, y];
    assert w.state.queue == [x, y];
    assert [x, y][1..] == [y];
    assert [y][1..] == [] && WithoutProjection([y], q.projectionId) == [];
    assert WithoutProjection([x, y], q.projectionId) == [x];
    assert Drop([x], x.key) == [];
  }
}
