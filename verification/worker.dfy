/** The shared worker itself: the module-level `tabs` map and `ownerTabId`
    as the fields of one object, each helper of tab-shared-worker.js as a
    method that updates them in place, and every message it posts appended
    to `outbox`. Each method is proved against the reference functions of
    the Registry module. */
module TabWorker {
  import opened Protocol
  import opened Registry

  /** The handles of the ping intervals of the given records. */
  function Pings(entries: map<TabId, Entry>): set<Handle>
  {
    set t | t in entries :: entries[t].ping
  }

  /** No two records share a ping interval. */
  predicate PingsDistinct(entries: map<TabId, Entry>)
  {
    forall t, u :: t in entries && u in entries && entries[t].ping == entries[u].ping ==> t == u
  }

  /** Deleting a record stops exactly its own interval. */
  lemma PingsDelete(entries: map<TabId, Entry>, id: TabId)
    requires id in entries && PingsDistinct(entries)
    ensures Pings(entries - {id}) == Pings(entries) - {entries[id].ping}
    ensures PingsDistinct(entries - {id})
  {
    var rest := entries - {id};
    forall h | h in Pings(entries) - {entries[id].ping} ensures h in Pings(rest) {
      var t :| t in entries && entries[t].ping == h;
      assert t != id;
      assert rest[t].ping == h;
    }
  }

  /** Changing `lastSeen` leaves the intervals as they are. */
  lemma PingsTouch(entries: map<TabId, Entry>, id: TabId, e: Entry)
    requires id in entries && e.ping == entries[id].ping && PingsDistinct(entries)
    ensures Pings(entries[id := e]) == Pings(entries)
    ensures PingsDistinct(entries[id := e])
  {
    var touched := entries[id := e];
    forall h | h in Pings(entries) ensures h in Pings(touched) {
      var t :| t in entries && entries[t].ping == h;
      assert touched[t].ping == h;
    }
  }

  /** Adding a record starts exactly its own interval. */
  lemma PingsAdd(entries: map<TabId, Entry>, id: TabId, e: Entry)
    requires id !in entries
    ensures Pings(entries[id := e]) == Pings(entries) + {e.ping}
  {
    var more := entries[id := e];
    assert more[id].ping == e.ping;
    forall h | h in Pings(entries) ensures h in Pings(more) {
      var t :| t in entries && entries[t].ping == h;
      assert more[t].ping == h;
    }
  }

  /** What a `heartbeat` does to the records: a registered tab's `lastSeen`
      becomes the numeric timestamp it sent, or `now` without one; the
      records of other tabs, and an unknown id, are left alone. */
  function Touch(entries: map<TabId, Entry>, id: TabId, timestamp: Option<int>, now: int): (r: map<TabId, Entry>)
    ensures r.Keys == entries.Keys
    ensures forall t :: t in entries && t != id ==> r[t] == entries[t]
    ensures id in entries ==> r[id].ping == entries[id].ping
  {
    if id in entries then
      entries[id := entries[id].(lastSeen := if timestamp.Some? then timestamp.value else now)]
    else entries
  }

  /** A heartbeat without a timestamp, received at a positive time `now`,
      keeps its tab out of every sweep until the timeout has passed. */
  lemma {:induction false} HeartbeatKeepsAlive(entries: map<TabId, Entry>, id: TabId, now: int, later: int)
    requires id in entries && now > 0 && later <= now + HEARTBEAT_TIMEOUT
    ensures id in Touch(entries, id, None, now)
    ensures id !in Doomed(Touch(entries, id, None, now), later)
  {
    assert Touch(entries, id, None, now)[id].lastSeen == now;
  }

  /** A heartbeat stores any numeric timestamp, even one older than the
      record's: `lastSeen` can move backwards. */
  lemma {:induction false} HeartbeatRewinds(entries: map<TabId, Entry>, id: TabId, stamp: int, now: int)
    requires id in entries && stamp < entries[id].lastSeen
    ensures id in Touch(entries, id, Some(stamp), now)
    ensures Touch(entries, id, Some(stamp), now)[id].lastSeen < entries[id].lastSeen
  {
    assert Touch(entries, id, Some(stamp), now)[id].lastSeen == stamp;
  }

  /** A heartbeat carrying timestamp 0 marks its record as never seen, so
      the next sweep evicts the tab whatever the time. */
  lemma {:induction false} ZeroStampDooms(entries: map<TabId, Entry>, id: TabId, now: int, later: int)
    requires id in entries
    ensures id in Doomed(Touch(entries, id, Some(0), now), later)
  {
    assert Touch(entries, id, Some(0), now)[id].lastSeen == 0;
  }

  class SharedWorker {
    /** The keys of `tabs` in insertion order. */
    var order: seq<TabId>
    /** The values of `tabs`, by key (the port is represented by the key). */
    var entries: map<TabId, Entry>
    /** `ownerTabId`; `null` is `None`. */
    var owner: Option<TabId>
    /** Every message posted so far, in posting order. */
    var outbox: seq<Sent>
    /** The ping intervals that are currently running. */
    var timers: set<Handle>
    /** The handle the next `setInterval` returns. */
    var nextHandle: Handle

    /** `order` and `entries` describe one map, and each registered tab has
        its own running ping interval and no other interval runs. */
    ghost predicate Records()
      reads this`order, this`entries, this`timers, this`nextHandle
    {
      && Distinct(order)
      && (forall t :: t in entries <==> t in order)
      && timers == Pings(entries)
      && (forall t :: t in entries ==> entries[t].ping < nextHandle)
      && PingsDistinct(entries)
    }

    /** The worker invariant: consistent records and a registered owner. */
    ghost predicate Valid()
      reads this`order, this`entries, this`owner, this`timers, this`nextHandle
    {
      Records() && (owner.Some? ==> owner.value in entries)
    }

    /** The keys and the owner, as a value of the reference model. */
    function View(): Roster
      reads this`order, this`owner
    {
      Roster(order, owner)
    }

    /** The state at worker start-up: no tabs, no owner. */
    constructor()
      ensures Valid() && View() == Roster([], None) && OldestOwns(View())
      ensures entries == map[] && outbox == [] && timers == {}
    {
      order := [];
      entries := map[];
      owner := None;
      outbox := [];
      timers := {};
      nextHandle := 1;
    }

    /** `postToTab`: a message to an unregistered tab is dropped. */
    method PostToTab(id: TabId, msg: Outbound)
      modifies this`outbox
      ensures outbox == old(outbox) + if id in entries then [Sent(id, msg)] else []
    {
      if id in entries {
        outbox := outbox + [Sent(id, msg)];
      }
    }

    /** `broadcastStatus`: one status to every registered tab, in insertion
        order. */
    method BroadcastStatus()
      modifies this`outbox
      ensures outbox == old(outbox) + StatusRound(order, owner)
    {
      var i := 0;
      while i < |order|
        invariant 0 <= i <= |order|
        invariant outbox == old(outbox) + StatusRound(order[..i], owner)
      {
        var t := order[i];
        outbox := outbox + [Sent(t, OwnershipStatus(Some(t) == owner, owner))];
        StatusRoundSnoc(order[..i], t, owner);
        assert order[..i + 1] == order[..i] + [t];
        i := i + 1;
      }
      assert order[..i] == order;
    }

    /** `pickNextOwner`: the earliest-registered tab, or none when no tab is
        registered. */
    function PickNextOwner(): (next: Option<TabId>)
      reads this`order, this`entries, this`owner, this`timers, this`nextHandle
      requires Valid()
      ensures next.None? <==> entries == map[]
      ensures next.Some? ==> next.value in entries
      ensures next.Some? ==> next.value == order[0]
    {
      if order == [] then
        assert entries.Keys == {};
        None
      else
        assert order[0] in entries;
        Some(order[0])
    }

    /** `setOwner(x)` for a registered x. */
    method SetOwner(x: TabId)
      requires Valid() && x in entries
      modifies this`owner, this`outbox
      ensures owner == Some(x) && Valid()
      ensures outbox == old(outbox) + ElectionRound(order, x)
    {
      owner := Some(x);
      assert Valid();
      var granted := [Sent(x, OwnershipGranted(x))];
      PostToTab(x, OwnershipGranted(x));
      ghost var denied := Notify(Keep(order, {x}), OwnershipDenied(x));
      DenyOthers(x);
      assert outbox == (old(outbox) + granted) + denied;
      BroadcastStatus();
      Assoc(old(outbox), granted + denied, StatusRound(order, Some(x)));
      Assoc(old(outbox), granted, denied);
    }

    /** The loop of `setOwner(x)` that tells every other registered tab that
        x owns. */
    method DenyOthers(x: TabId)
      requires forall t :: t in order ==> t in entries
      modifies this`outbox
      ensures outbox == old(outbox) + Notify(Keep(order, {x}), OwnershipDenied(x))
    {
      var i := 0;
      while i < |order|
        invariant 0 <= i <= |order|
        invariant outbox == old(outbox) + Notify(Keep(order[..i], {x}), OwnershipDenied(x))
      {
        var t := order[i];
        ghost var done := Keep(order[..i], {x});
        assert order[..i + 1] == order[..i] + [t];
        KeepSnoc(order[..i], t, {x});
        if t != x {
          PostToTab(t, OwnershipDenied(x));
          NotifyConcat(done, [t], OwnershipDenied(x));
          assert Notify([t], OwnershipDenied(x)) == [Sent(t, OwnershipDenied(x))];
          Assoc(old(outbox), Notify(done, OwnershipDenied(x)), [Sent(t, OwnershipDenied(x))]);
        } else {
          assert done + [] == done;
        }
        i := i + 1;
      }
      assert order[..i] == order;
    }

    /** `removeTab(id)`: stop its ping, delete its record, and re-elect if it
        was the owner; an unregistered id changes nothing. */
    method RemoveTab(id: TabId)
      requires Valid()
      modifies this
      ensures Valid()
      ensures View() == AfterRemove(old(View()), id)
      ensures outbox == old(outbox) + RemoveMessages(old(View()), id)
      ensures entries == old(entries) - {id}
      ensures timers == if id in old(entries) then old(timers) - {old(entries)[id].ping} else old(timers)
      ensures nextHandle == old(nextHandle)
      ensures old(OldestOwns(View())) ==> OldestOwns(View())
    {
      RemovePreserves(View(), id);
      if id !in entries {
        assert entries - {id} == entries;
        return;
      }
      DeleteRecord(id);
      HandOver(id);
    }

    /** The first half of `removeTab(id)` for a registered id: clear its
        ping interval and delete its record. */
    method DeleteRecord(id: TabId)
      requires Valid() && id in entries
      modifies this`order, this`entries, this`timers
      ensures Records()
      ensures order == Keep(old(order), {id})
      ensures entries == old(entries) - {id}
      ensures timers == old(timers) - {old(entries)[id].ping}
      ensures owner.Some? ==> owner.value in entries || owner.value == id
    {
      var ping := entries[id].ping;
      PingsDelete(entries, id);
      timers := timers - {ping};
      entries := entries - {id};
      KeepMembers(order, {id});
      KeepDistinct(order, {id});
      order := Keep(order, {id});
    }

    /** The second half of `removeTab(id)`, once the record is gone: when id
        owned, elect the earliest remaining tab (or nobody); then everyone
        hears the result. */
    method HandOver(id: TabId)
      requires Records() && id !in entries
      requires owner.Some? ==> owner.value in entries || owner.value == id
      modifies this`owner, this`outbox
      ensures Valid()
      ensures owner == if old(owner) == Some(id) then FirstKey(order) else old(owner)
      ensures outbox == old(outbox) +
        if old(owner) != Some(id) then StatusRound(order, owner)
        else if order != [] then ElectionRound(order, order[0])
        else StatusRound(order, None)
    {
      if owner == Some(id) {
        owner := None;
        var next := PickNextOwner();
        if next.Some? {
          SetOwner(next.value);
        } else {
          BroadcastStatus();
        }
      } else {
        BroadcastStatus();
      }
    }

    /** One tick of the eviction sweep at time `now`: remove every stale
        tab, then elect the earliest tab if tabs remain without an owner. */
    method Sweep(now: int)
      requires Valid()
      modifies this
      ensures Valid()
      ensures View() == AfterSweep(old(View()), Doomed(old(entries), now))
      ensures outbox == old(outbox) + SweepMessages(old(View()), Doomed(old(entries), now))
      ensures forall t :: t in entries <==> t in old(entries) && !Stale(old(entries)[t], now)
      ensures forall t :: t in entries ==> entries[t] == old(entries)[t]
      ensures nextHandle == old(nextHandle)
      ensures old(OldestOwns(View())) ==> OldestOwns(View())
    {
      ghost var start := View();
      ghost var e0 := entries;
      ghost var doomed := Doomed(entries, now);
      EvictStale(now);
      ghost var w := View();
      ghost var pass := SweepPassMessages(start.keys, start, doomed);
      assert w == SweepPass(start.keys, start, doomed);
      assert outbox == old(outbox) + pass;
      ghost var tail := if w.owner.None? && w.keys != [] then ElectionRound(w.keys, w.keys[0]) else [];
      assert SweepMessages(start, doomed) == pass + tail;
      ghost var swept := outbox;
      ElectIfOwnerless();
      assert outbox == swept + tail;
      assert View() == if w.owner.None? && w.keys != [] then Roster(w.keys, Some(w.keys[0])) else w;
      Assoc(old(outbox), pass, tail);
      assert OldestOwns(start) ==> OldestOwns(View()) by {
        SweepPreserves(start, doomed);
      }
      assert order == Keep(start.keys, doomed) by {
        SweepEvicts(start, doomed);
      }
      forall t ensures t in entries <==> t in e0 && !Stale(e0[t], now) {
        KeepHas(start.keys, doomed, t);
      }
    }

    /** The end of the sweep: if tabs remain but none owns, the earliest
        registered tab becomes the owner. */
    method ElectIfOwnerless()
      requires Valid()
      modifies this`owner, this`outbox
      ensures Valid()
      ensures owner == if old(owner).None? && order != [] then Some(order[0]) else old(owner)
      ensures outbox == old(outbox) + if old(owner).None? && order != [] then ElectionRound(order, order[0]) else []
    {
      if order != [] {
        assert order[0] in entries;
      }
      if owner.None? && entries != map[] {
        var next := PickNextOwner();
        if next.Some? {
          SetOwner(next.value);
        }
      } else {
        assert outbox + [] == outbox;
      }
    }

    /** The loop of the sweep: visit the tabs in insertion order and remove
        each stale one. Removal deletes only the record being visited, so the
        walk over a snapshot of the keys visits what the live iterator
        visits. */
    method EvictStale(now: int)
      requires Valid()
      modifies this
      ensures Valid()
      ensures View() == SweepPass(old(order), old(View()), Doomed(old(entries), now))
      ensures outbox == old(outbox) + SweepPassMessages(old(order), old(View()), Doomed(old(entries), now))
      ensures forall t :: t in entries ==> t in old(entries) && entries[t] == old(entries)[t]
      ensures nextHandle == old(nextHandle)
    {
      ghost var start := View();
      ghost var e0 := entries;
      ghost var doomed := Doomed(entries, now);
      var keys := order;
      var i := 0;
      while i < |keys|
        invariant 0 <= i <= |keys|
        invariant Valid()
        invariant forall k :: i <= k < |keys| ==> keys[k] in entries
        invariant forall t :: t in entries ==> t in e0 && entries[t] == e0[t]
        invariant SweepPass(keys[i..], View(), doomed) == SweepPass(keys, start, doomed)
        invariant outbox + SweepPassMessages(keys[i..], View(), doomed)
               == old(outbox) + SweepPassMessages(keys, start, doomed)
        invariant nextHandle == old(nextHandle)
      {
        var id := keys[i];
        ghost var here := View();
        ghost var sent := outbox;
        SweepPassUnroll(keys, i, here, doomed);
        assert id in doomed <==> Stale(entries[id], now);
        EvictIfStale(id, now);
        assert View() == if id in doomed then AfterRemove(here, id) else here;
        assert outbox == sent + if id in doomed then RemoveMessages(here, id) else [];
        forall k | i + 1 <= k < |keys| ensures keys[k] in entries {
          assert keys[k] != keys[i];
        }
        Assoc(sent, if id in doomed then RemoveMessages(here, id) else [],
                  SweepPassMessages(keys[i + 1..], View(), doomed));
        i := i + 1;
      }
      assert keys[i..] == [];
    }

    /** The body of the sweep loop for the visited tab id. */
    method EvictIfStale(id: TabId, now: int)
      requires Valid() && id in entries
      modifies this
      ensures Valid()
      ensures var stale := Stale(old(entries)[id], now);
        && View() == (if stale then AfterRemove(old(View()), id) else old(View()))
        && outbox == old(outbox) + (if stale then RemoveMessages(old(View()), id) else [])
        && entries == (if stale then old(entries) - {id} else old(entries))
      ensures nextHandle == old(nextHandle)
    {
      if Stale(entries[id], now) {
        RemoveTab(id);
      } else {
        assert outbox + [] == outbox;
      }
    }

    /** `init` from tab id at time `now`: drop any old record, register a
        fresh one, and make it the owner if there is none, otherwise tell it
        who owns. */
    method OnInit(id: TabId, now: int)
      requires Valid()
      modifies this
      ensures Valid()
      ensures View() == AfterInit(old(View()), id)
      ensures outbox == old(outbox) + InitMessages(old(View()), id)
      ensures entries == (old(entries) - {id})[id := Entry(now, old(nextHandle))]
      ensures timers == (if id in old(entries) then old(timers) - {old(entries)[id].ping} else old(timers))
                        + {old(nextHandle)}
      ensures nextHandle == old(nextHandle) + 1
      ensures old(OldestOwns(View())) ==> OldestOwns(View())
    {
      ghost var r0 := View();
      ghost var w := AfterRemove(r0, id);
      InitPreserves(r0, id);
      if id in entries {
        RemoveTab(id);
      } else {
        assert entries - {id} == entries;
      }
      assert View() == w;
      ghost var removed := outbox;
      ghost var kept := entries;
      assert removed == old(outbox) + RemoveMessages(r0, id);
      assert kept == old(entries) - {id} && nextHandle == old(nextHandle);
      AddRecord(id, now);
      assert entries == kept[id := Entry(now, old(nextHandle))];
      assert order == w.keys + [id] && owner == w.owner;
      ghost var tail := if w.owner.None? then ElectionRound(order, id)
        else [Sent(id, OwnershipDenied(w.owner.value))] + StatusRound(order, w.owner);
      Announce(id);
      assert outbox == removed + tail;
      assert InitMessages(r0, id) == RemoveMessages(r0, id) + tail;
      Assoc(old(outbox), RemoveMessages(r0, id), tail);
    }

    /** The end of `init` for the just-registered id: it becomes the owner
        if there is none; otherwise it alone hears who owns, then everyone
        hears the status. */
    method Announce(id: TabId)
      requires Valid() && id in entries
      modifies this`owner, this`outbox
      ensures Valid()
      ensures owner == if old(owner).None? then Some(id) else old(owner)
      ensures outbox == old(outbox) +
        if old(owner).None? then ElectionRound(order, id)
        else [Sent(id, OwnershipDenied(old(owner).value))] + StatusRound(order, owner)
    {
      if owner.None? {
        SetOwner(id);
      } else {
        PostToTab(id, OwnershipDenied(owner.value));
        BroadcastStatus();
      }
    }

    /** The middle of `init`: start a ping interval for id and append its
        record, last seen at `now`. */
    method AddRecord(id: TabId, now: int)
      requires Valid() && id !in entries
      modifies this`order, this`entries, this`timers, this`nextHandle
      ensures Valid()
      ensures order == old(order) + [id]
      ensures entries == old(entries)[id := Entry(now, old(nextHandle))]
      ensures timers == old(timers) + {old(nextHandle)}
      ensures nextHandle == old(nextHandle) + 1
    {
      var ping := nextHandle;
      nextHandle := nextHandle + 1;
      PingsAdd(entries, id, Entry(now, ping));
      timers := timers + {ping};
      entries := entries[id := Entry(now, ping)];
      DistinctAppend(order, id);
      order := order + [id];
    }

    /** `heartbeat` from tab id: a registered tab's `lastSeen` becomes the
        numeric timestamp it sent, or `now` without one; an unknown id is
        ignored. */
    method OnHeartbeat(id: TabId, timestamp: Option<int>, now: int)
      requires Valid()
      modifies this`entries
      ensures Valid()
      ensures entries == Touch(old(entries), id, timestamp, now)
    {
      if id in entries {
        var e := entries[id];
        var touched := e.(lastSeen := if timestamp.Some? then timestamp.value else now);
        PingsTouch(entries, id, touched);
        entries := entries[id := touched];
      }
    }

    /** `check-ownership` from tab id: only that tab, if registered, hears
        whether it owns and who does. */
    method OnCheckOwnership(id: TabId)
      modifies this`outbox
      ensures outbox == old(outbox) + if id in entries then [Sent(id, OwnershipStatus(Some(id) == owner, owner))] else []
    {
      PostToTab(id, OwnershipStatus(Some(id) == owner, owner));
    }

    /** The port's message handler: dispatch on the message type; a message
        without a tab id, or of an unknown type, changes nothing. */
    method OnMessage(m: Inbound, now: int)
      requires Valid()
      modifies this
      ensures Valid()
      ensures View() == Next(old(View()), Delivered(m))
      ensures outbox == old(outbox) + Replies(old(View()), m)
      ensures old(OldestOwns(View())) ==> OldestOwns(View())
      ensures m.tabId.None? || m.kind in {CheckOwnership, Unrecognized} ==>
        entries == old(entries) && timers == old(timers)
      ensures m.kind != Init || m.tabId.None? ==> nextHandle == old(nextHandle)
      ensures m.kind == Heartbeat && m.tabId.Some? ==>
        entries == Touch(old(entries), m.tabId.value, m.timestamp, now) && timers == old(timers)
      ensures m.kind in {Release, Disconnect} && m.tabId.Some? ==>
        var id := m.tabId.value;
        && entries == old(entries) - {id}
        && timers == if id in old(entries) then old(timers) - {old(entries)[id].ping} else old(timers)
      ensures m.kind == Init && m.tabId.Some? ==>
        var id := m.tabId.value;
        && entries == (old(entries) - {id})[id := Entry(now, old(nextHandle))]
        && timers == (if id in old(entries) then old(timers) - {old(entries)[id].ping} else old(timers))
                     + {old(nextHandle)}
        && nextHandle == old(nextHandle) + 1
    {
      match m.kind
      case Init =>
        if m.tabId.Some? {
          OnInit(m.tabId.value, now);
        }
      case Heartbeat =>
        if m.tabId.Some? {
          OnHeartbeat(m.tabId.value, m.timestamp, now);
        }
      case Release =>
        if m.tabId.Some? {
          RemoveTab(m.tabId.value);
        }
      case Disconnect =>
        if m.tabId.Some? {
          RemoveTab(m.tabId.value);
        }
      case CheckOwnership =>
        if m.tabId.Some? {
          OnCheckOwnership(m.tabId.value);
        }
      case Unrecognized =>
    }
  }
}
