/** What a drain of the send queue puts on the wire, and whom it reaches. */
module Deliveries {
  import opened Bytes
  import opened ChatTables
  import opened ChatSpec

  function ListOf(t: Tables, r: string): seq<Socket> {
    if r in t.rooms then t.rooms[r] else []
  }

  function Recipients(ds: seq<Delivery>): seq<Socket> {
    seq(|ds|, i requires 0 <= i < |ds| => ds[i].to)
  }

  /** The deliveries `ds` take `msg` exactly once to each session chatting in `room`, and to
      nobody else; so to nobody when the room is gone. */
  ghost predicate ReachesRoom(ds: seq<Delivery>, t: Tables, room: string, msg: Notice, status: ClientStatus) {
    && NoDuplicates(Recipients(ds))
    && (forall x :: x in Recipients(ds) <==> Chatting(t, x, room))
    && (forall d <- ds :: d.msg == msg && d.status == status)
  }

  lemma RecipientsOfAll(list: seq<Socket>, msg: Notice, status: ClientStatus)
    ensures Recipients(ToAll(list, msg, status)) == list
    ensures forall d <- ToAll(list, msg, status) :: d.msg == msg && d.status == status
  {
  }

  lemma ToAllReaches(t: Tables, room: string, msg: Notice, status: ClientStatus)
    requires Agree(t)
    ensures ReachesRoom(ToAll(ListOf(t, room), msg, status), t, room, msg, status)
  {
    RecipientsOfAll(ListOf(t, room), msg, status);
    if room !in t.rooms {
      assert forall x :: !Chatting(t, x, room);
    }
  }

  // ---- one entry ----

  /** The deliveries that one entry is due: a single one to its socket, or one to every socket on
      the list of its room, in list order; nothing goes out as a message for a file. */
  ghost predicate Due(ds: seq<Delivery>, e: SendData, t: Tables) {
    match e
    case SendMe(msg, to, status) => |ds| == 1 && ds[0].msg == msg && ds[0].to == to && ds[0].status == status
    case SendRoom(msg, room, status) =>
      && Recipients(ds) == ListOf(t, room)
      && (forall d <- ds :: d.msg == msg && d.status == status)
      && (Agree(t) ==> ReachesRoom(ds, t, room, msg, status))
    case SendFile(_, _, _) => ds == []
  }

  lemma SendOneDelivers(s: State) returns (ds: seq<Delivery>)
    requires s.local != []
    ensures SendOne(s).wire == s.wire + ds && Due(ds, s.local[0], s.tables)
  {
    match s.local[0]
    case SendMe(msg, to, status) => ds := [Delivery(msg, to, status)];
    case SendRoom(msg, room, status) =>
      ds := ToAll(ListOf(s.tables, room), msg, status);
      RecipientsOfAll(ListOf(s.tables, room), msg, status);
      if Agree(s.tables) {
        ToAllReaches(s.tables, room, msg, status);
      }
    case SendFile(_, _, _) => ds := [];
  }

  // ---- a whole drain ----

  /** One group for each entry, in the order of the entries, is what was delivered. */
  ghost predicate Groups(groups: seq<seq<Delivery>>, ds: seq<Delivery>, entries: seq<SendData>, t: Tables) {
    && |groups| == |entries| && ds == Flatten(groups)
    && forall i :: 0 <= i < |groups| ==> Due(groups[i], entries[i], t)
  }

  ghost predicate Delivered(ds: seq<Delivery>, entries: seq<SendData>, t: Tables) {
    exists groups :: Groups(groups, ds, entries, t)
  }

  /** A drain delivers what every entry it took is due, in order, and nothing else. */
  lemma {:induction false} DrainDelivers(s: State)
    ensures s.wire <= SendAll(s).wire
    ensures Delivered(SendAll(s).wire[|s.wire|..], s.local, s.tables)
    decreases |s.local|
  {
    if s.local == [] {
      assert Groups([], [], [], s.tables);
    } else {
      var ds := SendOneDelivers(s);
      var r := SendOne(s);
      DrainDelivers(r);
      var rest := SendAll(r).wire[|r.wire|..];
      var groups :| Groups(groups, rest, r.local, s.tables);
      assert SendAll(s).wire[|s.wire|..] == ds + rest;
      FlattenCons(ds, groups);
      assert s.local == [s.local[0]] + r.local;
      assert Groups([ds] + groups, ds + rest, s.local, s.tables);
    }
  }

  /** Everything queued has been sent. */
  function Drained(s: State): (r: State)
    requires s.local == []
  {
    SendAll(SendSwap(s))
  }

  lemma DrainedDelivers(s: State)
    requires s.local == []
    ensures var r := Drained(s);
            && r.tables == s.tables && r.accounts == s.accounts && r.live == s.live && r.queue == [] && r.local == []
            && s.wire <= r.wire && Delivered(r.wire[|s.wire|..], s.queue, s.tables)
  {
    SendAllHandles(SendSwap(s));
    DrainDelivers(SendSwap(s));
  }

  lemma OneIsDue(ds: seq<Delivery>, e: SendData, t: Tables)
    requires Delivered(ds, [e], t)
    ensures Due(ds, e, t)
  {
    var groups :| Groups(groups, ds, [e], t);
    assert Flatten(groups) == groups[0] + Flatten(groups[1..]);
    assert groups[0] + [] == groups[0];
  }

  lemma NothingIsDue(ds: seq<Delivery>, t: Tables)
    requires Delivered(ds, [], t)
    ensures ds == []
  {
  }
}
