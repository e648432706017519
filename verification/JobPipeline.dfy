/** The queue between receivers and workers under any interleaving of its critical sections. */
module JobPipeline {
  import opened Bytes

  /** What an atomic<int> holds after its arithmetic has wrapped around. */
  function Wrap32(n: int): (r: int)
    ensures IsInt32(r) && (r - n) % 0x1_0000_0000 == 0
    ensures IsInt32(n) ==> r == n
  {
    (n + 0x8000_0000) % 0x1_0000_0000 - 0x8000_0000
  }

  function Sum(ns: seq<int>): int {
    if ns == [] then 0 else Sum(ns[..|ns| - 1]) + ns[|ns| - 1]
  }

  lemma SumSnoc(ns: seq<int>, n: int)
    ensures Sum(ns + [n]) == Sum(ns) + n
  {
    assert (ns + [n])[..|ns|] == ns;
  }

  datatype Worker<T> = Worker(batch: nat, local: seq<T>)

  datatype Receiver<T> = Outside | Inside(thread: nat, packets: seq<T>)

  datatype Pipeline<T> = Pipeline(
    jobQueue: seq<T>,
    packetCnt: int,
    receiver: Receiver<T>,              // who is in the enqueue section, with what is left to push
    workers: map<nat, Worker<T>>,       // the batch each worker thread is busy with
    // what has happened so far
    blocks: seq<seq<T>>,                // the packets of each completion
    pushed: seq<T>,
    batches: seq<seq<T>>,               // in the order of the swaps
    progress: seq<nat>,                 // how many jobs of each batch have been taken
    taken: seq<(nat, nat)>,             // batch and position of every job taken
    returned: seq<int>)                 // by exchange(0)

  function Empty<T>(): (p: Pipeline<T>)
    ensures Inv(p)
  {
    Pipeline([], 0, Outside, map[], [], [], [], [], [], [])
  }

  datatype Action<T> =
    | Enters(thread: nat, packets: seq<T>)  // takes the lock and counts its packets
    | Pushes                                 // moves one packet into the queue
    | Leaves                                 // gives the lock back
    | Swaps(worker: nat)                     // takes the whole queue under the lock
    | Takes(worker: nat)                     // pops the front of its batch
    | Exchanges                              // reads and resets the counter, under no lock

  predicate Busy<T>(p: Pipeline<T>, w: nat) {
    w in p.workers && p.workers[w].local != []
  }

  predicate Can<T(==)>(p: Pipeline<T>, a: Action<T>) {
    match a
    case Enters(_, _) => p.receiver.Outside?
    case Pushes => p.receiver.Inside? && p.receiver.packets != []
    case Leaves => p.receiver.Inside? && p.receiver.packets == []
    case Swaps(w) => p.receiver.Outside? && |p.jobQueue| > 0 && !Busy(p, w)
    case Takes(w) => Busy(p, w)
    case Exchanges => true
  }

  function Act<T(==)>(p: Pipeline<T>, a: Action<T>): Pipeline<T>
    requires Can(p, a)
    requires a.Takes? ==> p.workers[a.worker].batch < |p.progress|
  {
    match a
    case Enters(thread, packets) =>
      p.(receiver := Inside(thread, packets), packetCnt := Wrap32(p.packetCnt + |packets|),
         blocks := p.blocks + [packets])
    case Pushes =>
      var packets := p.receiver.packets;
      p.(receiver := p.receiver.(packets := packets[1..]),
         jobQueue := p.jobQueue + [packets[0]], pushed := p.pushed + [packets[0]])
    case Leaves =>
      p.(receiver := Outside)
    case Swaps(w) =>
      p.(jobQueue := [], workers := p.workers[w := Worker(|p.batches|, p.jobQueue)],
         batches := p.batches + [p.jobQueue], progress := p.progress + [0])
    case Takes(w) =>
      var b := p.workers[w].batch;
      p.(workers := p.workers[w := Worker(b, p.workers[w].local[1..])],
         progress := p.progress[b := p.progress[b] + 1], taken := p.taken + [(b, p.progress[b])])
    case Exchanges =>
      p.(returned := p.returned + [p.packetCnt], packetCnt := 0)
  }

  function Left<T>(p: Pipeline<T>): seq<T> {
    if p.receiver.Inside? then p.receiver.packets else []
  }

  function Added<T>(p: Pipeline<T>): nat {
    |Flatten(p.blocks)|
  }

  /** Batches and queue make up what was pushed, and that is the completions end to end. */
  ghost predicate InOrder<T>(p: Pipeline<T>) {
    && Flatten(p.batches) + p.jobQueue == p.pushed
    && p.pushed + Left(p) == Flatten(p.blocks)
  }

  ghost predicate Counted<T>(p: Pipeline<T>) {
    && IsInt32(p.packetCnt)
    && (Sum(p.returned) + p.packetCnt - Added(p)) % 0x1_0000_0000 == 0
    && (Added(p) < 0x8000_0000 ==>
      p.packetCnt >= 0 && Sum(p.returned) >= 0 && Sum(p.returned) + p.packetCnt == Added(p))
  }

  /** A busy worker holds exactly what is left of its batch. */
  ghost predicate Holding<T>(p: Pipeline<T>) {
    && |p.progress| == |p.batches|
    && (forall b :: 0 <= b < |p.batches| ==> p.progress[b] <= |p.batches[b]|)
    && (forall w :: Busy(p, w) ==>
      var b := p.workers[w].batch;
      b < |p.batches| && p.workers[w].local == p.batches[b][p.progress[b]..])
  }

  predicate BusyWith<T>(p: Pipeline<T>, w: nat, b: nat) {
    Busy(p, w) && p.workers[w].batch == b
  }

  /** A batch that is not finished is the work of exactly one worker. */
  ghost predicate Exclusive<T>(p: Pipeline<T>) {
    && |p.progress| == |p.batches|
    && (forall b, v, w :: BusyWith(p, v, b) && BusyWith(p, w, b) ==> v == w)
    && (forall b :: 0 <= b < |p.batches| && p.progress[b] < |p.batches[b]| ==> exists w :: BusyWith(p, w, b))
  }

  ghost predicate Shared<T>(p: Pipeline<T>) {
    Holding(p) && Exclusive(p)
  }

  /** The jobs taken are the first ones of each batch, each of them once and in its turn. */
  ghost predicate TakenOnce<T>(p: Pipeline<T>) {
    && (forall b: nat, i: nat :: (b, i) in p.taken <==> b < |p.progress| && i < p.progress[b])
    && (forall k, l :: 0 <= k < l < |p.taken| ==> p.taken[k].0 != p.taken[l].0 || p.taken[k].1 < p.taken[l].1)
  }

  ghost predicate Inv<T>(p: Pipeline<T>) {
    InOrder(p) && Counted(p) && Shared(p) && TakenOnce(p)
  }

  lemma InOrderKept<T>(p: Pipeline<T>, a: Action<T>)
    requires InOrder(p) && Can(p, a) && (a.Takes? ==> p.workers[a.worker].batch < |p.progress|)
    ensures InOrder(Act(p, a))
  {
    match a
    case Enters(_, packets) =>
      FlattenSnoc(p.blocks, packets);
      assert p.pushed + [] == p.pushed;
    case Pushes =>
      var packets := p.receiver.packets;
      assert packets == [packets[0]] + packets[1..];
      assert (p.pushed + [packets[0]]) + packets[1..] == p.pushed + packets;
      assert Flatten(p.batches) + (p.jobQueue + [packets[0]]) == (Flatten(p.batches) + p.jobQueue) + [packets[0]];
    case Swaps(_) =>
      FlattenSnoc(p.batches, p.jobQueue);
      assert p.pushed + [] == p.pushed;
    case _ =>
  }

  lemma CountedKept<T>(p: Pipeline<T>, a: Action<T>)
    requires Counted(p) && Can(p, a) && (a.Takes? ==> p.workers[a.worker].batch < |p.progress|)
    ensures Counted(Act(p, a))
  {
    match a
    case Enters(_, packets) =>
      FlattenSnoc(p.blocks, packets);
    case Exchanges =>
      SumSnoc(p.returned, p.packetCnt);
    case _ =>
  }

  lemma SwapHolds<T>(p: Pipeline<T>, w: nat)
    requires Holding(p) && Can(p, Swaps(w))
    ensures Holding(Act(p, Swaps(w)))
  {
    var q := Act(p, Swaps(w));
    forall v | Busy(q, v) && v != w ensures Busy(p, v) && q.workers[v] == p.workers[v] {
    }
  }

  lemma SwapExcludes<T>(p: Pipeline<T>, w: nat)
    requires Holding(p) && Exclusive(p) && Can(p, Swaps(w))
    ensures Exclusive(Act(p, Swaps(w)))
  {
    var q := Act(p, Swaps(w));
    var n := |p.batches|;
    assert BusyWith(q, w, n);
    forall v: nat, b: nat ensures BusyWith(q, v, b) <==> BusyWith(p, v, b) || (v == w && b == n) {
    }
  }

  lemma TakeHolds<T>(p: Pipeline<T>, w: nat)
    requires Shared(p) && Can(p, Takes(w))
    ensures p.workers[w].batch < |p.progress|
    ensures Holding(Act(p, Takes(w)))
  {
    var b := p.workers[w].batch;
    var q := Act(p, Takes(w));
    assert BusyWith(p, w, b);
    forall v | Busy(q, v) && v != w
      ensures Busy(p, v) && q.workers[v] == p.workers[v] && p.workers[v].batch != b
    {
      assert BusyWith(p, v, p.workers[v].batch);
    }
    assert p.batches[b][p.progress[b]..][1..] == p.batches[b][p.progress[b] + 1..];
  }

  lemma TakeExcludes<T>(p: Pipeline<T>, w: nat)
    requires Shared(p) && Can(p, Takes(w))
    ensures p.workers[w].batch < |p.progress|
    ensures Exclusive(Act(p, Takes(w)))
  {
    var b := p.workers[w].batch;
    var q := Act(p, Takes(w));
    assert BusyWith(p, w, b);
    forall v: nat, c: nat ensures BusyWith(q, v, c) <==> BusyWith(p, v, c) && (v != w || |p.workers[w].local| > 1) {
    }
  }

  lemma TakeOnce<T>(p: Pipeline<T>, w: nat)
    requires Holding(p) && TakenOnce(p) && Can(p, Takes(w))
    ensures p.workers[w].batch < |p.progress| && TakenOnce(Act(p, Takes(w)))
  {
    var b := p.workers[w].batch;
    var q := Act(p, Takes(w));
    assert q.progress[b] == p.progress[b] + 1;
    forall c: nat, i: nat ensures (c, i) in q.taken <==> c < |q.progress| && i < q.progress[c] {
      assert (c, i) in q.taken <==> (c, i) in p.taken || (c, i) == (b, p.progress[b]);
    }
    forall k | 0 <= k < |p.taken| && p.taken[k].0 == b ensures p.taken[k].1 < p.progress[b] {
      assert (p.taken[k].0, p.taken[k].1) in p.taken;
    }
  }

  /** An action that leaves the batches and the workers alone. */
  lemma SameWorkers<T>(p: Pipeline<T>, q: Pipeline<T>)
    requires Shared(p) && TakenOnce(p)
    requires q.workers == p.workers && q.batches == p.batches && q.progress == p.progress && q.taken == p.taken
    ensures Shared(q) && TakenOnce(q)
  {
    assert forall w: nat, b: nat :: BusyWith(q, w, b) <==> BusyWith(p, w, b);
  }

  lemma SwapShares<T>(p: Pipeline<T>, w: nat)
    requires Shared(p) && TakenOnce(p) && Can(p, Swaps(w))
    ensures Shared(Act(p, Swaps(w))) && TakenOnce(Act(p, Swaps(w)))
  {
    SwapHolds(p, w);
    SwapExcludes(p, w);
  }

  lemma TakeShares<T>(p: Pipeline<T>, w: nat)
    requires Shared(p) && TakenOnce(p) && Can(p, Takes(w))
    ensures p.workers[w].batch < |p.progress|
    ensures Shared(Act(p, Takes(w))) && TakenOnce(Act(p, Takes(w)))
  {
    TakeHolds(p, w);
    TakeExcludes(p, w);
    TakeOnce(p, w);
  }

  lemma WorkersKept<T>(p: Pipeline<T>, a: Action<T>)
    requires Shared(p) && TakenOnce(p) && Can(p, a)
    ensures a.Takes? ==> p.workers[a.worker].batch < |p.progress|
    ensures Shared(Act(p, a)) && TakenOnce(Act(p, a))
  {
    match a
    case Swaps(w) => SwapShares(p, w);
    case Takes(w) => TakeShares(p, w);
    case _ => SameWorkers(p, Act(p, a));
  }

  lemma ActKeeps<T>(p: Pipeline<T>, a: Action<T>)
    requires Inv(p) && Can(p, a)
    ensures a.Takes? ==> p.workers[a.worker].batch < |p.progress|
    ensures Inv(Act(p, a))
  {
    WorkersKept(p, a);
    InOrderKept(p, a);
    CountedKept(p, a);
  }

  // ---- runs ----

  function Next<T(==)>(p: Pipeline<T>, a: Action<T>): (q: Pipeline<T>)
    requires Inv(p) && Can(p, a)
    ensures Inv(q)
  {
    ActKeeps(p, a);
    Act(p, a)
  }

  ghost predicate CanAll<T>(p: Pipeline<T>, acts: seq<Action<T>>)
    requires Inv(p)
    decreases acts
  {
    acts == [] || (Can(p, acts[0]) && CanAll(Next(p, acts[0]), acts[1..]))
  }

  function Execute<T(==)>(p: Pipeline<T>, acts: seq<Action<T>>): Pipeline<T>
    requires Inv(p) && CanAll(p, acts)
    decreases acts
  {
    if acts == [] then p else Execute(Next(p, acts[0]), acts[1..])
  }

  lemma {:induction false} ExecuteKeeps<T>(p: Pipeline<T>, acts: seq<Action<T>>)
    requires Inv(p) && CanAll(p, acts)
    ensures Inv(Execute(p, acts))
    decreases acts
  {
    if acts == [] {
    } else {
      ExecuteKeeps(Next(p, acts[0]), acts[1..]);
    }
  }

  function BlockOf<T>(a: Action<T>): seq<seq<T>> {
    if a.Enters? then [a.packets] else []
  }

  /** The packets that the receivers of a run bring, completion by completion. */
  function BlocksOf<T>(acts: seq<Action<T>>): seq<seq<T>> {
    if acts == [] then [] else BlockOf(acts[0]) + BlocksOf(acts[1..])
  }

  lemma NextBlocks<T>(p: Pipeline<T>, a: Action<T>)
    requires Inv(p) && Can(p, a)
    ensures Next(p, a).blocks == p.blocks + BlockOf(a)
  {
  }

  lemma {:induction false} ExecuteBlocks<T>(p: Pipeline<T>, acts: seq<Action<T>>)
    requires Inv(p) && CanAll(p, acts)
    ensures Execute(p, acts).blocks == p.blocks + BlocksOf(acts)
    decreases acts
  {
    if acts == [] {
    } else {
      ExecuteBlocks(Next(p, acts[0]), acts[1..]);
      NextBlocks(p, acts[0]);
      Assoc(p.blocks, BlockOf(acts[0]), BlocksOf(acts[1..]));
    }
  }

  /** The outcome of a run that starts with nothing. */
  ghost predicate Outcome<T(!new)>(p: Pipeline<T>, acts: seq<Action<T>>) {
    CanAll(Empty<T>(), acts) && p == Execute(Empty<T>(), acts)
  }

  lemma OutcomeKeeps<T(!new)>(p: Pipeline<T>, acts: seq<Action<T>>)
    requires Outcome(p, acts)
    ensures Inv(p) && p.blocks == BlocksOf(acts)
  {
    ExecuteKeeps(Empty<T>(), acts);
    ExecuteBlocks(Empty<T>(), acts);
    assert [] + BlocksOf(acts) == BlocksOf(acts);
  }

  /** Whatever the interleaving: the batches in swap order, then the queue, then what the
      receiver inside still has to push, are the completions in the order in which they
      entered, each in one piece. */
  lemma JobsConserved<T(!new)>(p: Pipeline<T>, acts: seq<Action<T>>)
    requires Outcome(p, acts)
    ensures Flatten(p.batches) + p.jobQueue + Left(p) == Flatten(BlocksOf(acts))
  {
    OutcomeKeeps(p, acts);
  }

  // ---- batches hold whole completions ----

  /** The first `i` batches are the first `m` completions. */
  ghost predicate Boundary<T>(p: Pipeline<T>, i: nat, m: nat) {
    i <= |p.batches| && m <= |p.blocks| && Flatten(p.batches[..i]) == Flatten(p.blocks[..m])
  }

  ghost predicate EndsBlock<T>(p: Pipeline<T>, i: nat) {
    exists m: nat :: Boundary(p, i, m)
  }

  /** Wherever one batch ends, so does a completion: none is split over two batches. */
  ghost predicate BlocksWhole<T>(p: Pipeline<T>) {
    forall i: nat :: i <= |p.batches| ==> EndsBlock(p, i)
  }

  /** More batches and more completions leave the boundaries there were. */
  lemma BoundaryStays<T>(p: Pipeline<T>, q: Pipeline<T>, i: nat)
    requires EndsBlock(p, i) && i <= |p.batches| && p.batches <= q.batches && p.blocks <= q.blocks
    ensures EndsBlock(q, i)
  {
    var m: nat :| Boundary(p, i, m);
    assert q.batches[..i] == p.batches[..i] && q.blocks[..m] == p.blocks[..m];
    assert Boundary(q, i, m);
  }

  lemma SwapEndsBlock<T>(p: Pipeline<T>, w: nat)
    requires InOrder(p) && Can(p, Swaps(w))
    ensures EndsBlock(Act(p, Swaps(w)), |p.batches| + 1)
  {
    var q := Act(p, Swaps(w));
    FlattenSnoc(p.batches, p.jobQueue);
    assert p.pushed + [] == p.pushed;
    assert q.batches[..|q.batches|] == q.batches && q.blocks[..|q.blocks|] == q.blocks;
    assert Boundary(q, |q.batches|, |q.blocks|);
  }

  lemma WholeKept<T>(p: Pipeline<T>, a: Action<T>)
    requires Inv(p) && BlocksWhole(p) && Can(p, a)
    ensures BlocksWhole(Next(p, a))
  {
    var q := Next(p, a);
    if a.Swaps? {
      SwapEndsBlock(p, a.worker);
    }
    forall i: nat | i <= |q.batches| ensures EndsBlock(q, i) {
      if i <= |p.batches| {
        BoundaryStays(p, q, i);
      }
    }
  }

  lemma {:induction false} ExecuteWhole<T>(p: Pipeline<T>, acts: seq<Action<T>>)
    requires Inv(p) && BlocksWhole(p) && CanAll(p, acts)
    ensures BlocksWhole(Execute(p, acts))
    decreases acts
  {
    if acts == [] {
    } else {
      WholeKept(p, acts[0]);
      ExecuteWhole(Next(p, acts[0]), acts[1..]);
    }
  }

  lemma NoBatchesIsWhole<T>(p: Pipeline<T>)
    requires p.batches == []
    ensures BlocksWhole(p)
  {
    assert p.batches[..0] == [] && p.blocks[..0] == [];
    assert Boundary(p, 0, 0);
    forall i: nat | i <= |p.batches| ensures EndsBlock(p, i) {
      assert i == 0;
    }
  }

  /** In every interleaving a worker that swaps takes the packets of a completion all or not. */
  lemma CompletionsStayWhole<T(!new)>(p: Pipeline<T>, acts: seq<Action<T>>)
    requires Outcome(p, acts)
    ensures BlocksWhole(p)
  {
    NoBatchesIsWhole(Empty<T>());
    ExecuteWhole(Empty<T>(), acts);
  }

  // ---- each job is taken once ----

  ghost predicate OnlyAt<T>(s: seq<T>, x: T, k: nat) {
    k < |s| && s[k] == x && forall l :: 0 <= l < |s| && s[l] == x ==> l == k
  }

  lemma TakenMeansOnce<T>(p: Pipeline<T>, b: nat, i: nat)
    requires TakenOnce(p) && (b, i) in p.taken
    ensures exists k :: OnlyAt(p.taken, (b, i), k)
  {
    var k :| 0 <= k < |p.taken| && p.taken[k] == (b, i);
    forall l | 0 <= l < |p.taken| && p.taken[l] == (b, i) ensures l == k {
    }
    assert OnlyAt(p.taken, (b, i), k);
  }

  lemma PendingMeansHeld<T>(p: Pipeline<T>, b: nat, i: nat)
    requires Inv(p) && b < |p.batches| && i < |p.batches[b]| && (b, i) !in p.taken
    ensures exists w :: BusyWith(p, w, b) && p.batches[b][i] in p.workers[w].local
  {
    assert p.progress[b] <= i;
    var w :| BusyWith(p, w, b);
    assert p.workers[w].local[i - p.progress[b]] == p.batches[b][i];
  }

  /** Every job swapped out has been taken, and then exactly once, or is still in the hands of
      a worker; and the jobs of a batch are taken front to back, by one worker only. */
  lemma JobsTakenOnce<T(!new)>(p: Pipeline<T>, acts: seq<Action<T>>, b: nat, i: nat)
    requires Outcome(p, acts) && b < |p.batches| && i < |p.batches[b]|
    ensures (exists k :: OnlyAt(p.taken, (b, i), k))
         || (exists w :: BusyWith(p, w, b) && p.batches[b][i] in p.workers[w].local)
    ensures (b, i) in p.taken ==> forall j: nat :: j < i ==> (b, j) in p.taken
    ensures forall v, w :: BusyWith(p, v, b) && BusyWith(p, w, b) ==> v == w
  {
    OutcomeKeeps(p, acts);
    if (b, i) in p.taken {
      TakenMeansOnce(p, b, i);
    } else {
      PendingMeansHeld(p, b, i);
    }
  }

  lemma SameWrap(m: int, n: int)
    requires (m - n) % 0x1_0000_0000 == 0
    ensures Wrap32(m) == Wrap32(n)
  {
  }

  lemma CountsAddUp<T>(p: Pipeline<T>)
    requires InOrder(p) && Counted(p)
    ensures Wrap32(Sum(p.returned) + p.packetCnt) == Wrap32(Added(p))
    ensures Added(p) < 0x8000_0000 ==> Sum(p.returned) + p.packetCnt == Added(p)
    ensures p.receiver.Outside? ==> Added(p) == |p.pushed|
  {
    SameWrap(Sum(p.returned) + p.packetCnt, Added(p));
    assert p.receiver.Outside? ==> p.pushed + [] == p.pushed;
  }

  /** The counter never loses a packet: modulo 2^32 always, and exactly while the total fits
      an int. With nobody in the enqueue section the total is what was pushed. */
  lemma PacketsCounted<T(!new)>(p: Pipeline<T>, acts: seq<Action<T>>)
    requires Outcome(p, acts)
    ensures var total := |Flatten(BlocksOf(acts))|;
            && Wrap32(Sum(p.returned) + p.packetCnt) == Wrap32(total)
            && (total < 0x8000_0000 ==> Sum(p.returned) + p.packetCnt == total)
            && (p.receiver.Outside? ==> total == |p.pushed|)
  {
    OutcomeKeeps(p, acts);
    CountsAddUp(p);
  }

  // ---- one receiver left alone ----

  function EnqueueActions<T>(thread: nat, packets: seq<T>): seq<Action<T>> {
    [Enters(thread, packets)] + PushActions(packets)
  }

  function PushActions<T>(packets: seq<T>): seq<Action<T>> {
    if packets == [] then [Leaves] else [Pushes] + PushActions(packets[1..])
  }

  lemma ExecuteCons<T>(p: Pipeline<T>, a: Action<T>, acts: seq<Action<T>>)
    requires Inv(p) && Can(p, a) && CanAll(Next(p, a), acts)
    ensures CanAll(p, [a] + acts) && Execute(p, [a] + acts) == Execute(Next(p, a), acts)
  {
    assert ([a] + acts)[1..] == acts;
  }

  lemma {:induction false} PushesMove<T>(p: Pipeline<T>, packets: seq<T>)
    requires Inv(p) && p.receiver.Inside? && p.receiver.packets == packets
    ensures CanAll(p, PushActions(packets))
    ensures var q := Execute(p, PushActions(packets));
            q.receiver.Outside? && q.jobQueue == p.jobQueue + packets && q.packetCnt == p.packetCnt
    decreases packets
  {
    if packets == [] {
      ExecuteCons(p, Leaves, []);
      assert [Leaves] + [] == PushActions(packets);
    } else {
      var q := Next(p, Pushes);
      assert q.jobQueue == p.jobQueue + [packets[0]] && q.receiver.packets == packets[1..];
      PushesMove(q, packets[1..]);
      ExecuteCons(p, Pushes, PushActions(packets[1..]));
      Assoc(p.jobQueue, [packets[0]], packets[1..]);
      assert packets == [packets[0]] + packets[1..];
    }
  }

  /** What the enqueue section does from lock to unlock. */
  lemma EnqueueSection<T>(p: Pipeline<T>, thread: nat, packets: seq<T>)
    requires Inv(p) && p.receiver.Outside?
    ensures CanAll(p, EnqueueActions(thread, packets))
    ensures var q := Execute(p, EnqueueActions(thread, packets));
            && q.receiver.Outside?
            && q.jobQueue == p.jobQueue + packets
            && q.packetCnt == Wrap32(p.packetCnt + |packets|)
  {
    PushesMove(Next(p, Enters(thread, packets)), packets);
    ExecuteCons(p, Enters(thread, packets), PushActions(packets));
  }
}
