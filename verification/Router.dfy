/** The connection table of router.rs: live connections and the quarantine of recently
    closed ids. What a connection does with a packet or a poll is a parameter; times are
    milliseconds of a clock that never goes back. */
module Routers {
  import opened Bytes

  const RECENTLY_CLOSED_TTL: nat := 2000

  /** A connection as far as the router sees it: which creation it is and `is_closed`. */
  datatype Connection = Connection(serial: nat, closed: bool)

  /** What the first lines of `send_to_network` tell apart. */
  datatype Incoming<Id> = EchoRequest | Quic | Invalid | Flow(id: Id)

  /** Results of `poll`, with whether the poll closed the connection. */
  datatype PollResult = Progress(closes: bool) | Blocked(closes: bool) | Failed

  datatype Creation<Id> = Creation(id: Id, at: nat, removedBefore: Option<nat>)

  /** How long a loop of removals took, and when in it the clock was read for each id. */
  datatype Pace<!Id> = Pace(delays: map<Id, nat>, took: nat) {
    function At(start: nat, id: Id): (at: nat)
      ensures start <= at <= start + took
    {
      start + if id in delays then Min(delays[id], took) else 0
    }
  }

  function AtOnce<Id>(): Pace<Id> {
    Pace(map[], 0)
  }

  /** `m` with every id of `ids` set to the time of its removal. */
  function Stamp<Id>(m: map<Id, nat>, ids: set<Id>, start: nat, pace: Pace<Id>): map<Id, nat> {
    m + map id | id in ids :: pace.At(start, id)
  }

  lemma StampOneMore<Id>(m: map<Id, nat>, ids: set<Id>, id: Id, start: nat, pace: Pace<Id>)
    ensures Stamp(m, ids + {id}, start, pace) == Stamp(m, ids, start, pace)[id := pace.At(start, id)]
  {
  }

  lemma DropOneMore<Id, V>(m: map<Id, V>, ids: set<Id>, id: Id)
    ensures m - (ids + {id}) == (m - ids) - {id}
  {
  }

  datatype Table<Id(==)> = Table(
    connections: map<Id, Connection>,
    recentlyClosed: map<Id, nat>,
    clock: nat,
    lastRemoved: map<Id, nat>,
    creations: seq<Creation<Id>>)
  {
    function Wait(elapsed: nat): Table<Id> {
      this.(clock := clock + elapsed)
    }

    function Purge(): (t: Table<Id>)
      ensures t.connections == connections && t.clock == clock
    {
      this.(recentlyClosed := map id | id in recentlyClosed && clock - recentlyClosed[id] < RECENTLY_CLOSED_TTL
                                :: recentlyClosed[id])
    }

    /** Take ids out of the live map and put them in quarantine. */
    function Retire(ids: set<Id>, pace: Pace<Id>): Table<Id>
      requires ids <= connections.Keys
    {
      this.(connections := connections - ids,
            recentlyClosed := Stamp(recentlyClosed, ids, clock, pace),
            lastRemoved := Stamp(lastRemoved, ids, clock, pace),
            clock := clock + pace.took)
    }

    function Create(id: Id, closes: bool): Table<Id> {
      this.(connections := connections[id := Connection(|creations|, closes)],
            creations := creations + [Creation(id, clock, if id in lastRemoved then Some(lastRemoved[id]) else None)])
    }

    /** `send_to_network`. Handling takes `during`; `creatable` says whether the
        connection can be opened, `closes` whether the packet closes it. */
    function SendToNetwork(packet: Incoming<Id>, during: nat, creatable: bool, closes: bool): Table<Id> {
      if !packet.Flow? then this else
      var id := packet.id;
      var t := Purge();
      if id in t.recentlyClosed then t
      else if id in t.connections then
        var c := t.connections[id];
        var u := t.(connections := t.connections[id := c.(closed := c.closed || closes)]).Wait(during);
        if u.connections[id].closed then u.Retire({id}, AtOnce()) else u
      else if creatable then t.Create(id, closes)
      else t
    }

    function Remove(id: Id): Table<Id> {
      if id in connections then Retire({id}, AtOnce()) else this
    }

    function CleanExpired(expired: set<Id>, pace: Pace<Id>): Table<Id> {
      Retire(expired * connections.Keys, pace)
    }

    function ResultFor(results: map<Id, PollResult>, id: Id): PollResult {
      if id in results then results[id] else Blocked(false)
    }

    /** The live connection after its poll. */
    function Polled(results: map<Id, PollResult>, id: Id): Connection
      requires id in connections
    {
      var r := ResultFor(results, id);
      var c := connections[id];
      c.(closed := c.closed || r.Failed? || r.closes)
    }

    predicate Ends(results: map<Id, PollResult>, id: Id)
      requires id in connections
    {
      match ResultFor(results, id)
      case Progress(_) => Polled(results, id).closed
      case Blocked(_) => false
      case Failed => true
    }

    /** The polls and the removals together take `pace.took`. */
    function PollConnections(results: map<Id, PollResult>, pace: Pace<Id>): Table<Id> {
      this.(connections := map id | id in connections :: Polled(results, id))
          .Retire((set id | id in connections && Ends(results, id)), pace)
    }

    function Clear(): Table<Id> {
      this.(connections := map[], recentlyClosed := map[], lastRemoved := map[])
    }
  }

  // ── runs ──

  datatype Event<!Id> =
    | Packet(packet: Incoming<Id>, during: nat, creatable: bool, closes: bool)
    | RemoveOne(id: Id)
    | Expire(expired: set<Id>, pace: Pace<Id>)
    | PollAll(results: map<Id, PollResult>, pace: Pace<Id>)
    | ClearAll

  /** Some time passes, then something happens. */
  function Step<Id>(t: Table<Id>, elapsed: nat, e: Event<Id>): Table<Id> {
    var u := t.Wait(elapsed);
    match e
    case Packet(p, during, creatable, closes) => u.SendToNetwork(p, during, creatable, closes)
    case RemoveOne(id) => u.Remove(id)
    case Expire(expired, pace) => u.CleanExpired(expired, pace)
    case PollAll(results, pace) => u.PollConnections(results, pace)
    case ClearAll => u.Clear()
  }

  function Run<Id>(t: Table<Id>, events: seq<(nat, Event<Id>)>): Table<Id>
    decreases |events|
  {
    if events == [] then t else Run(Step(t, events[0].0, events[0].1), events[1..])
  }

  function Empty<Id>(): Table<Id> {
    Table(map[], map[], 0, map[], [])
  }

  /** Live and quarantined ids are apart; an id removed since the last `clear` is in
      quarantine with its time until the time to live has passed; and every connection
      ever created respected that. */
  ghost predicate Quarantined<Id(!new)>(t: Table<Id>) {
    && t.connections.Keys !! t.recentlyClosed.Keys
    && (forall id :: id in t.recentlyClosed ==> id in t.lastRemoved && t.recentlyClosed[id] == t.lastRemoved[id])
    && (forall id :: id in t.lastRemoved ==> t.lastRemoved[id] <= t.clock)
    && (forall id :: id in t.lastRemoved && id !in t.recentlyClosed ==>
          t.clock - t.lastRemoved[id] >= RECENTLY_CLOSED_TTL)
    && (forall i :: 0 <= i < |t.creations| ==> Respectful(t.creations[i]))
  }

  ghost predicate Respectful<Id>(c: Creation<Id>) {
    c.removedBefore.Some? ==> c.at - c.removedBefore.value >= RECENTLY_CLOSED_TTL
  }

  lemma WaitKeeps<Id(!new)>(t: Table<Id>, elapsed: nat)
    requires Quarantined(t)
    ensures Quarantined(t.Wait(elapsed))
  {
  }

  lemma PurgeKeeps<Id(!new)>(t: Table<Id>)
    requires Quarantined(t)
    ensures Quarantined(t.Purge())
  {
  }

  lemma RetireKeeps<Id(!new)>(t: Table<Id>, ids: set<Id>, pace: Pace<Id>)
    requires Quarantined(t) && ids <= t.connections.Keys
    ensures Quarantined(t.Retire(ids, pace))
  {
  }

  lemma SendToNetworkKeeps<Id(!new)>(t: Table<Id>, packet: Incoming<Id>, during: nat, creatable: bool, closes: bool)
    requires Quarantined(t)
    ensures Quarantined(t.SendToNetwork(packet, during, creatable, closes))
  {
    hide Table.Retire;
    if packet.Flow? {
      var id := packet.id;
      PurgeKeeps(t);
      var p := t.Purge();
      if id !in p.recentlyClosed && id in p.connections {
        var c := p.connections[id];
        var u := p.(connections := p.connections[id := c.(closed := c.closed || closes)]);
        assert u.connections.Keys == p.connections.Keys;
        WaitKeeps(u, during);
        RetireKeeps(u.Wait(during), {id}, AtOnce());
      }
    }
  }

  lemma PollKeeps<Id(!new)>(t: Table<Id>, results: map<Id, PollResult>, pace: Pace<Id>)
    requires Quarantined(t)
    ensures Quarantined(t.PollConnections(results, pace))
  {
    hide Table.Retire;
    var u := t.(connections := map id | id in t.connections :: t.Polled(results, id));
    assert u.connections.Keys == t.connections.Keys;
    RetireKeeps(u, (set id | id in t.connections && t.Ends(results, id)), pace);
  }

  lemma StepKeeps<Id(!new)>(t: Table<Id>, elapsed: nat, e: Event<Id>)
    requires Quarantined(t)
    ensures Quarantined(Step(t, elapsed, e))
  {
    hide Quarantined;
    hide Table.Retire;
    hide Table.SendToNetwork;
    hide Table.PollConnections;
    WaitKeeps(t, elapsed);
    var u := t.Wait(elapsed);
    match e {
      case Packet(p, during, creatable, closes) => SendToNetworkKeeps(u, p, during, creatable, closes);
      case RemoveOne(id) =>
        if id in u.connections {
          RetireKeeps(u, {id}, AtOnce());
        }
      case Expire(expired, pace) => RetireKeeps(u, expired * u.connections.Keys, pace);
      case PollAll(results, pace) => PollKeeps(u, results, pace);
      case ClearAll => ClearKeeps(u);
    }
  }

  lemma ClearKeeps<Id(!new)>(t: Table<Id>)
    requires Quarantined(t)
    ensures Quarantined(t.Clear())
  {
  }

  lemma {:induction false} RunKeeps<Id(!new)>(t: Table<Id>, events: seq<(nat, Event<Id>)>)
    requires Quarantined(t)
    ensures Quarantined(Run(t, events))
    decreases |events|
  {
    hide Quarantined;
    hide Step;
    if events != [] {
      StepKeeps(t, events[0].0, events[0].1);
      RunKeeps(Step(t, events[0].0, events[0].1), events[1..]);
    }
  }

  /** Over whole runs: no id is live and quarantined at once, and no connection is ever
      created for an id less than two seconds after that id was removed. */
  lemma NoConnectionFromQuarantine<Id(!new)>(events: seq<(nat, Event<Id>)>)
    ensures
      var t := Run(Empty(), events);
      && t.connections.Keys !! t.recentlyClosed.Keys
      && forall i :: 0 <= i < |t.creations| && t.creations[i].removedBefore.Some? ==>
           t.creations[i].at >= t.creations[i].removedBefore.value + 2000
  {
    hide Run;
    RunKeeps(Empty<Id>(), events);
    var t := Run(Empty<Id>(), events);
    forall i | 0 <= i < |t.creations| && t.creations[i].removedBefore.Some?
      ensures t.creations[i].at >= t.creations[i].removedBefore.value + 2000
    {
      assert Respectful(t.creations[i]);
    }
  }

  /** A quarantined id is served by nothing: its packets change no connection. */
  lemma QuarantineAbsorbsPackets<Id(!new)>(t: Table<Id>, id: Id, during: nat, creatable: bool, closes: bool)
    requires Quarantined(t) && id in t.lastRemoved && t.clock - t.lastRemoved[id] < RECENTLY_CLOSED_TTL
    ensures t.SendToNetwork(Flow(id), during, creatable, closes).connections == t.connections
    ensures t.SendToNetwork(Flow(id), during, creatable, closes).creations == t.creations
  {
  }

  /** `t` may have come to be `r` without anything happening to `id`. */
  ghost predicate Untouched<Id>(t: Table<Id>, r: Table<Id>, id: Id) {
    && id !in r.connections && id in t.lastRemoved && id in r.lastRemoved && r.lastRemoved[id] == t.lastRemoved[id]
    && t.creations <= r.creations
    && forall k :: |t.creations| <= k < |r.creations| ==> r.creations[k].id != id
  }

  lemma StepLeaves<Id(!new)>(t: Table<Id>, elapsed: nat, e: Event<Id>, id: Id)
    requires Quarantined(t) && id in t.lastRemoved && !e.ClearAll?
    requires Step(t, elapsed, e).clock - t.lastRemoved[id] < RECENTLY_CLOSED_TTL
    ensures Untouched(t, Step(t, elapsed, e), id)
  {
    hide Table.SendToNetwork;
    WaitKeeps(t, elapsed);
    var u := t.Wait(elapsed);
    StepTakesTime(t, elapsed, e);
    assert u.clock <= Step(t, elapsed, e).clock;
    assert id in u.recentlyClosed && id !in u.connections;
    if e.Packet? {
      PacketLeaves(u, e.packet, e.during, e.creatable, e.closes, id);
    }
  }

  lemma PacketLeaves<Id(!new)>(u: Table<Id>, packet: Incoming<Id>, during: nat, creatable: bool, closes: bool, id: Id)
    requires Quarantined(u) && id in u.lastRemoved && u.clock - u.lastRemoved[id] < RECENTLY_CLOSED_TTL
    ensures Untouched(u, u.SendToNetwork(packet, during, creatable, closes), id)
  {
    assert id in u.recentlyClosed && id !in u.connections;
    if packet == Flow(id) {
      QuarantineAbsorbsPackets(u, id, during, creatable, closes);
    }
  }

  lemma {:induction false} ClockGrows<Id>(t: Table<Id>, events: seq<(nat, Event<Id>)>)
    ensures t.clock <= Run(t, events).clock
    decreases |events|
  {
    if events != [] {
      StepTakesTime(t, events[0].0, events[0].1);
      ClockGrows(Step(t, events[0].0, events[0].1), events[1..]);
    }
  }

  lemma StepTakesTime<Id>(t: Table<Id>, elapsed: nat, e: Event<Id>)
    ensures t.clock <= t.clock + elapsed <= Step(t, elapsed, e).clock
  {
  }

  /** Over whole runs without `clear`: as long as an id was removed less than two seconds
      ago it is not live and no connection is created for it, whatever packets arrive. */
  lemma {:induction false} QuarantineHolds<Id(!new)>(t: Table<Id>, events: seq<(nat, Event<Id>)>, id: Id)
    requires Quarantined(t) && id in t.lastRemoved
    requires forall i :: 0 <= i < |events| ==> !events[i].1.ClearAll?
    requires Run(t, events).clock - t.lastRemoved[id] < RECENTLY_CLOSED_TTL
    ensures Untouched(t, Run(t, events), id)
    decreases |events|
  {
    hide Step;
    hide Quarantined;
    if events == [] {
      QuarantinedIsNotLive(t, id);
    } else {
      var u := Step(t, events[0].0, events[0].1);
      ClockGrows(u, events[1..]);
      StepLeaves(t, events[0].0, events[0].1, id);
      StepKeeps(t, events[0].0, events[0].1);
      QuarantineHolds(u, events[1..], id);
    }
  }

  lemma QuarantinedIsNotLive<Id(!new)>(t: Table<Id>, id: Id)
    requires Quarantined(t) && id in t.lastRemoved && t.clock - t.lastRemoved[id] < RECENTLY_CLOSED_TTL
    ensures id !in t.connections
  {
  }

  /** After a poll no live connection is closed, if and only if no poll reports
      WouldBlock for a connection that is closed when it ends. */
  lemma PollLeavesNoClosedConnectionIff<Id(!new)>(t: Table<Id>, results: map<Id, PollResult>, pace: Pace<Id>)
    ensures
      var after := t.PollConnections(results, pace);
      (forall id :: id in after.connections ==> !after.connections[id].closed)
      <==>
      (forall id :: id in t.connections && t.ResultFor(results, id).Blocked? ==>
         !(t.connections[id].closed || t.ResultFor(results, id).closes))
  {
    var after := t.PollConnections(results, pace);
    assert forall id :: id in after.connections <==> id in t.connections && !t.Ends(results, id);
    assert forall id :: id in after.connections ==> after.connections[id] == t.Polled(results, id);
    forall id | id in t.connections && t.ResultFor(results, id).Blocked?
      ensures id in after.connections
      ensures after.connections[id].closed == (t.connections[id].closed || t.ResultFor(results, id).closes)
    {
    }
  }

  /** Every connection that a poll ends enters quarantine, stamped between the start and
      the end of polling; every other one stays. */
  lemma RemovalsAreRecorded<Id(!new)>(t: Table<Id>, results: map<Id, PollResult>, pace: Pace<Id>, id: Id)
    requires id in t.connections
    ensures
      var after := t.PollConnections(results, pace);
      if t.Ends(results, id) then
        && id !in after.connections && id in after.recentlyClosed
        && t.clock <= after.recentlyClosed[id] <= after.clock
      else id in after.connections && after.connections[id] == t.Polled(results, id)
  {
  }

  // ── which ids are live ──

  /** Removed less than two seconds ago. */
  predicate RecentlyRemoved<Id>(t: Table<Id>, id: Id) {
    id in t.lastRemoved && t.clock - t.lastRemoved[id] < RECENTLY_CLOSED_TTL
  }

  /** When a live connection leaves the table. */
  predicate Leaves<Id>(t: Table<Id>, e: Event<Id>, id: Id)
    requires id in t.connections
  {
    match e
    case Packet(p, _, _, closes) => p == Flow(id) && (t.connections[id].closed || closes)
    case RemoveOne(removed) => removed == id
    case Expire(expired, _) => id in expired
    case PollAll(results, _) => t.Ends(results, id)
    case ClearAll => true
  }

  /** When a connection is created for an id that has none. */
  predicate Enters<Id>(t: Table<Id>, e: Event<Id>, id: Id) {
    e.Packet? && e.packet == Flow(id) && e.creatable && !RecentlyRemoved(t, id)
  }

  /** A connection that stays: the same creation, closed only by what happened to it. */
  predicate Remains<Id>(t: Table<Id>, e: Event<Id>, r: Table<Id>, id: Id)
    requires id in t.connections
  {
    && id in r.connections
    && r.connections[id] == (if e.PollAll? then t.Polled(e.results, id) else t.connections[id])
  }

  /** After every step of every run, exactly which ids are live: a live one stays unless it
      closed, was removed, expired, ended in its poll, or all were cleared; one that is not
      live becomes so exactly by a packet that can open it, two seconds after its removal. */
  lemma LiveIff<Id(!new)>(t: Table<Id>, elapsed: nat, e: Event<Id>, id: Id)
    requires Quarantined(t)
    ensures
      var u := t.Wait(elapsed);
      var r := Step(t, elapsed, e);
      if id in t.connections then (if Leaves(u, e, id) then id !in r.connections else Remains(u, e, r, id))
      else id in r.connections <==> Enters(u, e, id)
  {
    hide Table.Retire;
    WaitKeeps(t, elapsed);
    var u := t.Wait(elapsed);
    match e {
      case Packet(p, during, creatable, closes) => PacketDoesExactly(u, p, during, creatable, closes, id);
      case RemoveOne(removed) =>
        if removed in u.connections {
          RetireExactly(u, {removed}, AtOnce(), id);
        }
      case Expire(expired, pace) => RetireExactly(u, expired * u.connections.Keys, pace, id);
      case PollAll(results, pace) =>
        var v := u.(connections := map i | i in u.connections :: u.Polled(results, i));
        RetireExactly(v, (set i | i in u.connections && u.Ends(results, i)), pace, id);
      case ClearAll =>
    }
  }

  /** A removal takes exactly these ids, stamps each while it lasts, and leaves the others. */
  lemma RetireExactly<Id(!new)>(t: Table<Id>, ids: set<Id>, pace: Pace<Id>, id: Id)
    requires ids <= t.connections.Keys
    ensures
      var r := t.Retire(ids, pace);
      && r.creations == t.creations
      && if id in ids then
           && id !in r.connections && id in r.recentlyClosed && id in r.lastRemoved
           && t.clock <= r.recentlyClosed[id] == r.lastRemoved[id] <= r.clock == t.clock + pace.took
         else SameFor(t, r, id)
  {
  }

  /** Nothing happened to this id. */
  ghost predicate SameFor<Id>(t: Table<Id>, r: Table<Id>, id: Id) {
    && (id in r.connections <==> id in t.connections)
    && (id in t.connections ==> r.connections[id] == t.connections[id])
    && (id in r.recentlyClosed <==> id in t.recentlyClosed)
    && (id in t.recentlyClosed ==> r.recentlyClosed[id] == t.recentlyClosed[id])
    && (id in r.lastRemoved <==> id in t.lastRemoved)
    && (id in t.lastRemoved ==> r.lastRemoved[id] == t.lastRemoved[id])
  }

  /** What a packet does to its own connection and to every other. A live connection handles
      it; if it was or became closed it is gone, quarantined with the time after handling.
      Without one, exactly one is created, if it can be and the id was not removed less than
      two seconds ago. No other id is touched, except that its quarantine may have run out. */
  lemma PacketDoesExactly<Id(!new)>(t: Table<Id>, packet: Incoming<Id>, during: nat, creatable: bool, closes: bool,
                                    other: Id)
    requires Quarantined(t)
    ensures
      var r := t.SendToNetwork(packet, during, creatable, closes);
      && (packet != Flow(other) ==>
            SameFor(t, r, other)
            || (SameFor(t.(recentlyClosed := t.recentlyClosed - {other}), r, other) && !RecentlyRemoved(t, other)))
      && if !packet.Flow? then r == t else
         var id := packet.id;
         if id in t.connections then
           && r.creations == t.creations && r.clock == t.clock + during
           && if t.connections[id].closed || closes then
                && id !in r.connections && id in r.recentlyClosed && id in r.lastRemoved
                && r.recentlyClosed[id] == r.lastRemoved[id] == r.clock
              else id in r.connections && r.connections[id] == t.connections[id]
         else if creatable && !RecentlyRemoved(t, id) then
           && |r.creations| == |t.creations| + 1 && t.creations <= r.creations
           && r.creations[|t.creations|].id == id && r.creations[|t.creations|].at == t.clock
           && id in r.connections && r.connections[id] == Connection(|t.creations|, closes)
         else id !in r.connections && r.creations == t.creations && r.clock == t.clock
  {
    hide Table.Retire;
    if packet.Flow? {
      var id := packet.id;
      var p := t.Purge();
      if id in t.connections {
        var c := p.connections[id];
        var u := p.(connections := p.connections[id := c.(closed := c.closed || closes)]).Wait(during);
        RetireExactly(u, {id}, AtOnce(), id);
        RetireExactly(u, {id}, AtOnce(), other);
      }
    }
  }

  /** Over whole runs: a packet that can open a connection is served by one that stays if and
      only if its id is live and neither closed nor closed by it, or is not live and was not
      removed less than two seconds ago. */
  lemma PacketIsServedIff<Id(!new)>(events: seq<(nat, Event<Id>)>, elapsed: nat, id: Id, during: nat, closes: bool)
    ensures
      var t := Run(Empty<Id>(), events).Wait(elapsed);
      var r := t.SendToNetwork(Flow(id), during, true, closes);
      && (id in r.connections <==>
            if id in t.connections then !t.connections[id].closed && !closes else !RecentlyRemoved(t, id))
      && |r.creations| == |t.creations| + (if id !in t.connections && !RecentlyRemoved(t, id) then 1 else 0)
  {
    hide Run;
    hide Table.SendToNetwork;
    RunKeeps(Empty<Id>(), events);
    WaitKeeps(Run(Empty<Id>(), events), elapsed);
    PacketDoesExactly(Run(Empty<Id>(), events).Wait(elapsed), Flow(id), during, true, closes, id);
  }

  /** An id is served again exactly two seconds after its removal. */
  lemma ServedAgainIff<Id(!new)>(t: Table<Id>, id: Id, elapsed: nat, during: nat, closes: bool)
    requires Quarantined(t) && id in t.connections
    ensures
      var removed := Step(t, 0, RemoveOne(id));
      id in Step(removed, elapsed, Packet(Flow(id), during, true, closes)).connections <==> elapsed >= 2000
  {
    hide Table.SendToNetwork;
    hide Table.Retire;
    var removed := Step(t, 0, RemoveOne(id));
    StepKeeps(t, 0, RemoveOne(id));
    RetireExactly(t.Wait(0), {id}, AtOnce(), id);
    LiveIff(removed, elapsed, Packet(Flow(id), during, true, closes), id);
  }

  /** Every connection that leaves the table, but by `clear`, is quarantined, stamped between
      the start and the end of the step. */
  lemma LeavingIsQuarantined<Id(!new)>(t: Table<Id>, elapsed: nat, e: Event<Id>, id: Id)
    requires Quarantined(t) && !e.ClearAll? && id in t.connections && id !in Step(t, elapsed, e).connections
    ensures
      var r := Step(t, elapsed, e);
      && id in r.recentlyClosed && id in r.lastRemoved && r.lastRemoved[id] == r.recentlyClosed[id]
      && t.clock + elapsed <= r.lastRemoved[id] <= r.clock
  {
    hide Table.Retire;
    hide Table.SendToNetwork;
    WaitKeeps(t, elapsed);
    var u := t.Wait(elapsed);
    match e {
      case Packet(p, during, creatable, closes) =>
        PacketDoesExactly(u, p, during, creatable, closes, id);
        StepTakesTime(t, elapsed, e);
      case RemoveOne(removed) =>
        if removed in u.connections {
          RetireExactly(u, {removed}, AtOnce(), id);
        }
      case Expire(expired, pace) => RetireExactly(u, expired * u.connections.Keys, pace, id);
      case PollAll(results, pace) =>
        var v := u.(connections := map i | i in u.connections :: u.Polled(results, i));
        RetireExactly(v, (set i | i in u.connections && u.Ends(results, i)), pace, id);
    }
  }

  // ── the object ──

  class Router<Id(==)> {
    var connections: map<Id, Connection>
    var recentlyClosed: map<Id, nat>
    ghost var clock: nat
    ghost var lastRemoved: map<Id, nat>
    var serial: nat
    ghost var creations: seq<Creation<Id>>

    ghost predicate Valid()
      reads this
    {
      serial == |creations|
    }

    ghost function View(): Table<Id>
      reads this
    {
      Table(connections, recentlyClosed, clock, lastRemoved, creations)
    }

    constructor ()
      ensures Valid() && View() == Empty()
    {
      connections, recentlyClosed, clock, lastRemoved, serial, creations := map[], map[], 0, map[], 0, [];
    }

    /** `now` is the reading of the clock, which has not gone back. */
    method SendToNetwork(packet: Incoming<Id>, now: nat, during: nat, creatable: bool, closes: bool)
      requires Valid() && now >= clock
      modifies this
      ensures Valid()
      ensures View() == old(View()).Wait(now - old(clock)).SendToNetwork(packet, during, creatable, closes)
    {
      hide Table.Retire;
      clock := now;
      if !packet.Flow? {
        return;
      }
      var id := packet.id;
      recentlyClosed := map i | i in recentlyClosed && now - recentlyClosed[i] < RECENTLY_CLOSED_TTL
                          :: recentlyClosed[i];
      if id in recentlyClosed {
        return;
      }
      if id in connections {
        var connection := connections[id];
        connection := connection.(closed := connection.closed || closes);
        connections := connections[id := connection];
        clock := now + during;
        if connection.closed {
          Retire({id}, now + during, AtOnce());
        }
      } else if creatable {
        Insert(id, closes);
      }
    }

    method Insert(id: Id, closes: bool)
      requires Valid()
      modifies this
      ensures Valid() && View() == old(View()).Create(id, closes)
    {
      connections := connections[id := Connection(serial, closes)];
      serial := serial + 1;
      creations := creations + [Creation(id, clock, if id in lastRemoved then Some(lastRemoved[id]) else None)];
    }

    /** Removal from the live map and entry into quarantine, id by id, the clock read for
        each. */
    method Retire(ids: set<Id>, now: nat, pace: Pace<Id>)
      requires Valid() && ids <= connections.Keys && now == clock
      modifies this
      ensures Valid() && View() == old(View()).Retire(ids, pace)
    {
      hide Stamp;
      var todo := ids;
      ghost var done: set<Id> := {};
      StampNothing(recentlyClosed, now, pace);
      StampNothing(lastRemoved, now, pace);
      assert connections - {} == connections;
      while todo != {}
        invariant serial == |creations| && clock == now && creations == old(creations)
        invariant todo + done == ids
        invariant connections == old(connections) - done
        invariant recentlyClosed == Stamp(old(recentlyClosed), done, now, pace)
        invariant lastRemoved == Stamp(old(lastRemoved), done, now, pace)
        decreases |todo|
      {
        var id :| id in todo;
        DropOneMore(old(connections), done, id);
        StampOneMore(old(recentlyClosed), done, id, now, pace);
        StampOneMore(old(lastRemoved), done, id, now, pace);
        var reading := pace.At(now, id);
        connections := connections - {id};
        recentlyClosed := recentlyClosed[id := reading];
        lastRemoved := lastRemoved[id := reading];
        todo, done := todo - {id}, done + {id};
      }
      clock := now + pace.took;
    }

    method Remove(id: Id, now: nat)
      requires Valid() && now >= clock
      modifies this
      ensures Valid() && View() == old(View()).Wait(now - old(clock)).Remove(id)
    {
      clock := now;
      if id in connections {
        Retire({id}, now, AtOnce());
      }
    }

    /** `expired` are the ids whose connection says it is expired. */
    method CleanExpiredConnections(expired: set<Id>, now: nat, pace: Pace<Id>)
      requires Valid() && now >= clock
      modifies this
      ensures Valid() && View() == old(View()).Wait(now - old(clock)).CleanExpired(expired, pace)
    {
      clock := now;
      Retire(expired * connections.Keys, now, pace);
    }

    method PollConnections(results: map<Id, PollResult>, now: nat, pace: Pace<Id>)
      requires Valid() && now >= clock
      modifies this
      ensures Valid() && View() == old(View()).Wait(now - old(clock)).PollConnections(results, pace)
    {
      hide Table.Retire;
      clock := now;
      var polled, closedIds := PollEach(results);
      connections := polled;
      Retire(closedIds, now, pace);
    }

    /** The first half of `poll_connections`: every connection polled once, the ids to
        remove collected. */
    method PollEach(results: map<Id, PollResult>) returns (polled: map<Id, Connection>, closedIds: set<Id>)
      ensures polled == map id | id in connections :: View().Polled(results, id)
      ensures closedIds == set id | id in connections && View().Ends(results, id)
    {
      hide Table.Polled;
      hide Table.Ends;
      var todo := connections.Keys;
      closedIds := {};
      polled := map[];
      while todo != {}
        invariant todo <= connections.Keys
        invariant polled.Keys == connections.Keys - todo
        invariant forall id :: id in polled ==> polled[id] == View().Polled(results, id)
        invariant forall id :: id in closedIds <==> id in polled && View().Ends(results, id)
        decreases |todo|
      {
        var id :| id in todo;
        var connection, ends := PollOne(results, id);
        polled := polled[id := connection];
        if ends {
          closedIds := closedIds + {id};
        }
        todo := todo - {id};
      }
    }

    method PollOne(results: map<Id, PollResult>, id: Id) returns (connection: Connection, ends: bool)
      requires id in connections
      ensures connection == View().Polled(results, id) && ends == View().Ends(results, id)
    {
      connection := connections[id];
      match if id in results then results[id] else Blocked(false) {
        case Progress(closes) =>
          connection := connection.(closed := connection.closed || closes);
          ends := connection.closed;
        case Blocked(closes) =>
          connection := connection.(closed := connection.closed || closes);
          ends := false;
        case Failed =>
          connection := connection.(closed := true);
          ends := true;
      }
    }

    method Clear(now: nat)
      requires Valid() && now >= clock
      modifies this
      ensures Valid() && View() == old(View()).Wait(now - old(clock)).Clear()
    {
      clock := now;
      connections, recentlyClosed, lastRemoved := map[], map[], map[];
    }
  }

  lemma StampNothing<Id>(m: map<Id, nat>, start: nat, pace: Pace<Id>)
    ensures Stamp(m, {}, start, pace) == m
  {
  }
}
