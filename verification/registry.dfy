/** A value-level reference model of the worker's registry and election:
    the `tabs` keys in insertion order together with `ownerTabId`, what each
    operation does to them, and the messages each operation posts. The class
    in worker.dfy is proved against these functions. */
module Registry {
  import opened Protocol

  /** The keys of `tabs` in insertion order, and the owner. */
  datatype Roster = Roster(keys: seq<TabId>, owner: Option<TabId>)

  predicate Distinct(s: seq<TabId>)
  {
    forall i, j :: 0 <= i < j < |s| ==> s[i] != s[j]
  }

  /** Keys are unique and the owner is absent or a registered tab. */
  predicate WellFormed(r: Roster)
  {
    Distinct(r.keys) && (r.owner.Some? ==> r.owner.value in r.keys)
  }

  /** The owner is the earliest-registered tab (and there is none exactly
      when no tab is registered). */
  predicate OldestOwns(r: Roster)
  {
    r.owner == FirstKey(r.keys)
  }

  /** `pickNextOwner`: the first key in insertion order, or none. */
  function FirstKey(keys: seq<TabId>): Option<TabId>
  {
    if keys == [] then None else Some(keys[0])
  }

  /** The keys of `s` not in `drop`, in their original order: what is left of
      the `tabs` keys after deleting `drop`. */
  function Keep(s: seq<TabId>, drop: set<TabId>): (r: seq<TabId>)
    ensures |r| <= |s|
    decreases |s|
  {
    if s == [] then []
    else
      var front, last := s[..|s| - 1], s[|s| - 1];
      assert s == front + [last];
      Keep(front, drop) + (if last in drop then [] else [last])
  }

  /** The same message posted to each of `tos`, in order. */
  function Notify(tos: seq<TabId>, m: Outbound): seq<Sent>
  {
    seq(|tos|, i requires 0 <= i < |tos| => Sent(tos[i], m))
  }

  /** `broadcastStatus`: one `ownership-status` per registered tab, in
      insertion order. */
  function StatusRound(keys: seq<TabId>, owner: Option<TabId>): seq<Sent>
  {
    seq(|keys|, i requires 0 <= i < |keys| =>
      Sent(keys[i], OwnershipStatus(Some(keys[i]) == owner, owner)))
  }

  /** What `setOwner(x)` posts: `ownership-granted` to x, `ownership-denied`
      to every other registered tab, then a status broadcast. */
  function ElectionRound(keys: seq<TabId>, x: TabId): seq<Sent>
  {
    [Sent(x, OwnershipGranted(x))]
    + Notify(Keep(keys, {x}), OwnershipDenied(x))
    + StatusRound(keys, Some(x))
  }

  /** The messages of `ms` addressed to tab t, in order. */
  function HeardBy(ms: seq<Sent>, t: TabId): seq<Outbound>
  {
    if ms == [] then []
    else (if ms[0].to == t then [ms[0].msg] else []) + HeardBy(ms[1..], t)
  }

  // ---------------------------------------------------------------------
  // removeTab, init, the sweep

  /** `removeTab(id)` on the keys and the owner. */
  function AfterRemove(r: Roster, id: TabId): Roster
  {
    if id !in r.keys then r
    else
      var rest := Keep(r.keys, {id});
      Roster(rest, if r.owner == Some(id) then FirstKey(rest) else r.owner)
  }

  /** The messages `removeTab(id)` posts. */
  function RemoveMessages(r: Roster, id: TabId): seq<Sent>
  {
    if id !in r.keys then []
    else
      var rest := Keep(r.keys, {id});
      if r.owner == Some(id) then
        if rest != [] then ElectionRound(rest, rest[0]) else StatusRound(rest, None)
      else StatusRound(rest, r.owner)
  }

  /** `init` for tab id: replace any old record, append the new one, and make
      it the owner when there is none. */
  function AfterInit(r: Roster, id: TabId): Roster
  {
    var w := AfterRemove(r, id);
    Roster(w.keys + [id], if w.owner.None? then Some(id) else w.owner)
  }

  /** The messages `init` posts. */
  function InitMessages(r: Roster, id: TabId): seq<Sent>
  {
    var w := AfterRemove(r, id);
    var keys := w.keys + [id];
    RemoveMessages(r, id)
    + if w.owner.None? then ElectionRound(keys, id)
      else [Sent(id, OwnershipDenied(w.owner.value))] + StatusRound(keys, w.owner)
  }

  /** The ids the sweep evicts at time now. */
  function Doomed(entries: map<TabId, Entry>, now: int): set<TabId>
  {
    set t | t in entries && Stale(entries[t], now)
  }

  /** The sweep loop over the keys still to visit: each doomed key is removed
      with `removeTab`. */
  function SweepPass(pending: seq<TabId>, r: Roster, doomed: set<TabId>): Roster
    decreases |pending|
  {
    if pending == [] then r
    else SweepPass(pending[1..], if pending[0] in doomed then AfterRemove(r, pending[0]) else r, doomed)
  }

  /** The messages the sweep loop posts. */
  function SweepPassMessages(pending: seq<TabId>, r: Roster, doomed: set<TabId>): seq<Sent>
    decreases |pending|
  {
    if pending == [] then []
    else if pending[0] in doomed then
      RemoveMessages(r, pending[0]) + SweepPassMessages(pending[1..], AfterRemove(r, pending[0]), doomed)
    else SweepPassMessages(pending[1..], r, doomed)
  }

  /** The whole sweep: the loop, then an election if tabs remain but no
      owner does. */
  function AfterSweep(r: Roster, doomed: set<TabId>): Roster
  {
    var w := SweepPass(r.keys, r, doomed);
    if w.owner.None? && w.keys != [] then Roster(w.keys, Some(w.keys[0])) else w
  }

  function SweepMessages(r: Roster, doomed: set<TabId>): seq<Sent>
  {
    var w := SweepPass(r.keys, r, doomed);
    SweepPassMessages(r.keys, r, doomed)
    + if w.owner.None? && w.keys != [] then ElectionRound(w.keys, w.keys[0]) else []
  }

  /** Everything that can happen to the worker, in the single order its event
      loop serialises it: a message from a tab, or a sweep tick evicting the
      given stale ids. */
  datatype Event = Delivered(m: Inbound) | SweepTick(doomed: set<TabId>)

  /** The effect of one event on the keys and the owner (heartbeat and
      check-ownership change neither). */
  function Next(r: Roster, e: Event): Roster
  {
    match e
    case SweepTick(doomed) => AfterSweep(r, doomed)
    case Delivered(m) =>
      if m.tabId.None? then r
      else
        match m.kind
        case Init => AfterInit(r, m.tabId.value)
        case Release => AfterRemove(r, m.tabId.value)
        case Disconnect => AfterRemove(r, m.tabId.value)
        case _ => r
  }

  /** The messages posted in reply to one inbound message. */
  function Replies(r: Roster, m: Inbound): seq<Sent>
  {
    if m.tabId.None? then []
    else
      var id := m.tabId.value;
      match m.kind
      case Init => InitMessages(r, id)
      case Release => RemoveMessages(r, id)
      case Disconnect => RemoveMessages(r, id)
      case CheckOwnership =>
        if id in r.keys then [Sent(id, OwnershipStatus(Some(id) == r.owner, r.owner))] else []
      case _ => []
  }

  function Run(r: Roster, events: seq<Event>): Roster
    decreases |events|
  {
    if events == [] then r else Run(Next(r, events[0]), events[1..])
  }

  // ---------------------------------------------------------------------
  // Lemmas about insertion order

  lemma {:induction false} KeepConcat(a: seq<TabId>, b: seq<TabId>, drop: set<TabId>)
    ensures Keep(a + b, drop) == Keep(a, drop) + Keep(b, drop)
    decreases |b|
  {
    if b == [] {
      assert a + b == a;
    } else {
      var front := b[..|b| - 1];
      var last := b[|b| - 1];
      assert (a + b)[..|a + b| - 1] == a + front;
      assert (a + b)[|a + b| - 1] == last;
      KeepConcat(a, front, drop);
    }
  }

  /** Appending a key, then deleting. */
  lemma {:induction false} KeepSnoc(s: seq<TabId>, t: TabId, drop: set<TabId>)
    ensures Keep(s + [t], drop) == Keep(s, drop) + if t in drop then [] else [t]
  {
    assert (s + [t])[..|s|] == s;
  }

  /** A key survives deletion exactly when it was there and is not deleted. */
  lemma {:induction false} KeepMembers(s: seq<TabId>, drop: set<TabId>)
    ensures forall t :: t in Keep(s, drop) <==> t in s && t !in drop
    decreases |s|
  {
    if s != [] {
      var front, last := s[..|s| - 1], s[|s| - 1];
      assert s == front + [last];
      KeepMembers(front, drop);
    }
  }

  /** `KeepMembers` for one key. */
  lemma {:induction false} KeepHas(s: seq<TabId>, drop: set<TabId>, t: TabId)
    ensures t in Keep(s, drop) <==> t in s && t !in drop
  {
    KeepMembers(s, drop);
  }

  /** When the first key survives, it stays first. */
  lemma {:induction false} KeepHead(s: seq<TabId>, drop: set<TabId>)
    requires s != [] && s[0] !in drop
    ensures Keep(s, drop) != [] && Keep(s, drop)[0] == s[0]
    decreases |s|
  {
    if |s| > 1 {
      var front := s[..|s| - 1];
      assert front[0] == s[0];
      KeepHead(front, drop);
    }
  }

  /** Deleting keys never creates a duplicate. */
  lemma {:induction false} KeepDistinct(s: seq<TabId>, drop: set<TabId>)
    requires Distinct(s)
    ensures Distinct(Keep(s, drop))
    decreases |s|
  {
    if s != [] {
      var front, last := s[..|s| - 1], s[|s| - 1];
      assert s == front + [last];
      KeepDistinct(front, drop);
      KeepMembers(front, drop);
      assert last !in front;
    }
  }

  /** Deleting keys that are not there changes nothing. */
  lemma {:induction false} KeepUntouched(s: seq<TabId>, drop: set<TabId>)
    requires forall t :: t in s ==> t !in drop
    ensures Keep(s, drop) == s
    decreases |s|
  {
    if s != [] {
      KeepUntouched(s[..|s| - 1], drop);
      assert s == s[..|s| - 1] + [s[|s| - 1]];
    }
  }

  /** Deleting the first key of a distinct key list leaves the rest. */
  lemma {:induction false} KeepFirstOut(s: seq<TabId>)
    requires Distinct(s) && s != []
    ensures Keep(s, {s[0]}) == s[1..]
  {
    assert s == [s[0]] + s[1..];
    KeepConcat([s[0]], s[1..], {s[0]});
    assert Keep([s[0]], {s[0]}) == [];
    KeepUntouched(s[1..], {s[0]});
  }

  /** Splitting off the first pending key of the sweep. */
  lemma {:induction false} KeepFront(s: seq<TabId>, drop: set<TabId>)
    requires s != []
    ensures Keep(s, drop) == (if s[0] in drop then [] else [s[0]]) + Keep(s[1..], drop)
  {
    assert s == [s[0]] + s[1..];
    KeepConcat([s[0]], s[1..], drop);
    assert Keep([s[0]], drop) == Keep([], drop) + (if s[0] in drop then [] else [s[0]]);
  }

  /** In a list without duplicates a registered key occurs exactly once. */
  lemma {:induction false} OccursOnce(s: seq<TabId>, t: TabId)
    requires Distinct(s) && t in s
    ensures multiset(s)[t] == 1
  {
    assert s == [s[0]] + s[1..];
    if s[0] == t {
      assert t !in s[1..];
    } else {
      OccursOnce(s[1..], t);
    }
  }

  lemma {:induction false} DistinctAppend(s: seq<TabId>, t: TabId)
    requires Distinct(s) && t !in s
    ensures Distinct(s + [t])
  {
  }

  // ---------------------------------------------------------------------
  // Lemmas about what each tab hears

  /** Sequence concatenation is associative. */
  lemma Assoc<T>(a: seq<T>, b: seq<T>, c: seq<T>)
    ensures (a + b) + c == a + (b + c)
  {
  }

  lemma {:induction false} HeardByConcat(a: seq<Sent>, b: seq<Sent>, t: TabId)
    ensures HeardBy(a + b, t) == HeardBy(a, t) + HeardBy(b, t)
  {
    if a == [] {
      assert a + b == b;
    } else {
      assert (a + b)[1..] == a[1..] + b;
      HeardByConcat(a[1..], b, t);
      var here := if a[0].to == t then [a[0].msg] else [];
      assert (a + b)[0] == a[0];
      Assoc(here, HeardBy(a[1..], t), HeardBy(b, t));
    }
  }

  lemma {:induction false} NotifyConcat(a: seq<TabId>, b: seq<TabId>, m: Outbound)
    ensures Notify(a + b, m) == Notify(a, m) + Notify(b, m)
  {
    assert |Notify(a + b, m)| == |Notify(a, m) + Notify(b, m)|;
    forall i | 0 <= i < |a + b| ensures Notify(a + b, m)[i] == (Notify(a, m) + Notify(b, m))[i] {
      if i < |a| {
        assert (a + b)[i] == a[i];
      } else {
        assert (a + b)[i] == b[i - |a|];
      }
    }
  }

  lemma {:induction false} StatusRoundSnoc(keys: seq<TabId>, t: TabId, owner: Option<TabId>)
    ensures StatusRound(keys + [t], owner) ==
      StatusRound(keys, owner) + [Sent(t, OwnershipStatus(Some(t) == owner, owner))]
  {
    var lhs := StatusRound(keys + [t], owner);
    var rhs := StatusRound(keys, owner) + [Sent(t, OwnershipStatus(Some(t) == owner, owner))];
    assert |lhs| == |rhs|;
    forall i | 0 <= i < |lhs| ensures lhs[i] == rhs[i] {
      if i < |keys| {
        assert (keys + [t])[i] == keys[i];
      }
    }
  }

  lemma DistinctTail(s: seq<TabId>)
    requires Distinct(s) && s != []
    ensures Distinct(s[1..]) && s[0] !in s[1..]
  {
    forall i | 0 <= i < |s| - 1 ensures s[1..][i] != s[0] {
      assert s[1..][i] == s[i + 1];
    }
  }

  lemma {:induction false} HeardByNotify(tos: seq<TabId>, m: Outbound, t: TabId)
    requires Distinct(tos)
    ensures HeardBy(Notify(tos, m), t) == if t in tos then [m] else []
  {
    if tos != [] {
      var first := Sent(tos[0], m);
      assert Notify(tos, m) == [first] + Notify(tos[1..], m);
      HeardByConcat([first], Notify(tos[1..], m), t);
      DistinctTail(tos);
      HeardByNotify(tos[1..], m, t);
      assert HeardBy([first], t) == if tos[0] == t then [m] else [];
      assert t in tos <==> t == tos[0] || t in tos[1..];
    }
  }

  /** Every status broadcast reaches each registered tab exactly once, names
      the current owner, and tells `isOwner` true to that tab alone. */
  lemma {:induction false} StatusHeardBy(keys: seq<TabId>, owner: Option<TabId>, t: TabId)
    requires Distinct(keys)
    ensures HeardBy(StatusRound(keys, owner), t) ==
      if t in keys then [OwnershipStatus(Some(t) == owner, owner)] else []
  {
    if keys != [] {
      var first := Sent(keys[0], OwnershipStatus(Some(keys[0]) == owner, owner));
      assert StatusRound(keys, owner) == [first] + StatusRound(keys[1..], owner);
      HeardByConcat([first], StatusRound(keys[1..], owner), t);
      DistinctTail(keys);
      StatusHeardBy(keys[1..], owner, t);
      assert HeardBy([first], t) == if keys[0] == t then [first.msg] else [];
      assert t in keys <==> t == keys[0] || t in keys[1..];
    }
  }

  /** Consequence for a whole broadcast: two registered tabs that are both
      told they own are the same tab, and it is the owner. */
  lemma {:induction false} StatusMarksOnlyOwner(keys: seq<TabId>, owner: Option<TabId>, t: TabId, u: TabId)
    requires Distinct(keys) && t in keys && u in keys
    requires HeardBy(StatusRound(keys, owner), t) == [OwnershipStatus(true, owner)]
    requires HeardBy(StatusRound(keys, owner), u) == [OwnershipStatus(true, owner)]
    ensures t == u && owner == Some(t)
  {
    StatusHeardBy(keys, owner, t);
    StatusHeardBy(keys, owner, u);
  }

  /** `setOwner(x)`: x hears granted then a status saying it owns; every
      other registered tab hears denied naming x then a status saying it
      does not; nobody else hears anything. */
  lemma {:induction false} ElectionHeardBy(keys: seq<TabId>, x: TabId, t: TabId)
    requires Distinct(keys) && x in keys
    ensures HeardBy(ElectionRound(keys, x), t) ==
      if t == x then [OwnershipGranted(x), OwnershipStatus(true, Some(x))]
      else if t in keys then [OwnershipDenied(x), OwnershipStatus(false, Some(x))]
      else []
  {
    var others := Keep(keys, {x});
    var granted := [Sent(x, OwnershipGranted(x))];
    var denied := Notify(others, OwnershipDenied(x));
    var status := StatusRound(keys, Some(x));
    assert ElectionRound(keys, x) == granted + denied + status;
    HeardByConcat(granted + denied, status, t);
    HeardByConcat(granted, denied, t);
    assert granted[1..] == [];
    assert HeardBy(granted, t) == if t == x then [OwnershipGranted(x)] else [];
    KeepDistinct(keys, {x});
    KeepHas(keys, {x}, t);
    HeardByNotify(others, OwnershipDenied(x), t);
    StatusHeardBy(keys, Some(x), t);
  }

  // ---------------------------------------------------------------------
  // Lemmas about removeTab

  /** Removal keeps the registry well formed, and keeps the oldest tab as
      owner. */
  lemma {:induction false} RemovePreserves(r: Roster, id: TabId)
    requires WellFormed(r)
    ensures WellFormed(AfterRemove(r, id))
    ensures OldestOwns(r) ==> OldestOwns(AfterRemove(r, id))
  {
    KeepDistinct(r.keys, {id});
    KeepMembers(r.keys, {id});
    if r.keys != [] && r.keys[0] != id {
      KeepHead(r.keys, {id});
    }
  }

  /** Removing the owner hands ownership to the earliest-registered of the
      remaining tabs, or to nobody when none remain. */
  lemma {:induction false} RemoveOwnerElectsNext(r: Roster, id: TabId)
    requires WellFormed(r) && r.owner == Some(id)
    ensures AfterRemove(r, id).owner ==
      if r.keys[0] != id then Some(r.keys[0])
      else if |r.keys| > 1 then Some(r.keys[1])
      else None
  {
    if r.keys[0] == id {
      KeepFirstOut(r.keys);
    } else {
      KeepHead(r.keys, {id});
    }
  }

  /** After `removeTab(id)` on a registered id, the removed tab hears
      nothing, and every remaining tab's last message is a status naming the
      new owner and telling it whether it is that owner. */
  lemma {:induction false} RemoveTellsResult(r: Roster, id: TabId, t: TabId)
    requires WellFormed(r) && id in r.keys
    ensures var r' := AfterRemove(r, id);
            var heard := HeardBy(RemoveMessages(r, id), t);
            && (t in r'.keys ==> heard != [] && heard[|heard| - 1] == OwnershipStatus(Some(t) == r'.owner, r'.owner))
            && (t !in r'.keys ==> heard == [])
  {
    var rest := Keep(r.keys, {id});
    KeepDistinct(r.keys, {id});
    KeepHas(r.keys, {id}, t);
    var r' := AfterRemove(r, id);
    assert r'.keys == rest;
    if r.owner == Some(id) && rest != [] {
      assert RemoveMessages(r, id) == ElectionRound(rest, rest[0]);
      assert r'.owner == Some(rest[0]);
      ElectionHeardBy(rest, rest[0], t);
    } else if r.owner == Some(id) {
      assert RemoveMessages(r, id) == StatusRound(rest, None) == [];
    } else {
      assert RemoveMessages(r, id) == StatusRound(rest, r.owner);
      assert r'.owner == r.owner;
      StatusHeardBy(rest, r.owner, t);
    }
  }

  // ---------------------------------------------------------------------
  // Lemmas about init

  /** Re-registration never leaves a duplicate: afterwards id is registered
      exactly once, at the end of the insertion order, and every other key
      keeps its place. */
  lemma {:induction false} InitLeavesOneRecord(r: Roster, id: TabId)
    requires WellFormed(r)
    ensures AfterInit(r, id).keys == Keep(r.keys, {id}) + [id]
    ensures multiset(AfterInit(r, id).keys)[id] == 1
    ensures WellFormed(AfterInit(r, id))
  {
    RemovePreserves(r, id);
    if id !in r.keys {
      KeepUntouched(r.keys, {id});
    }
    var keys := AfterInit(r, id).keys;
    KeepMembers(r.keys, {id});
    DistinctAppend(Keep(r.keys, {id}), id);
    OccursOnce(keys, id);
  }

  /** The tab being registered hears nothing from the removal of its old
      record. */
  lemma {:induction false} InitRemovalSilentToSelf(r: Roster, id: TabId)
    requires WellFormed(r)
    ensures HeardBy(RemoveMessages(r, id), id) == []
  {
    if id in r.keys {
      KeepMembers(r.keys, {id});
      RemoveTellsResult(r, id, id);
    }
  }

  /** `init` with no owner: the new tab becomes owner and hears
      `ownership-granted` then a status saying it owns. */
  lemma {:induction false} InitWithoutOwner(r: Roster, id: TabId)
    requires WellFormed(r) && r.owner.None?
    ensures AfterInit(r, id).owner == Some(id)
    ensures HeardBy(InitMessages(r, id), id) == [OwnershipGranted(id), OwnershipStatus(true, Some(id))]
  {
    InitLeavesOneRecord(r, id);
    InitRemovalSilentToSelf(r, id);
    var keys := AfterRemove(r, id).keys + [id];
    HeardByConcat(RemoveMessages(r, id), ElectionRound(keys, id), id);
    ElectionHeardBy(keys, id, id);
  }

  /** `init` while another tab owns: the owner is unchanged, and the new tab
      hears `ownership-denied` naming the owner, then a status saying it does
      not own. */
  lemma {:induction false} InitWithOtherOwner(r: Roster, id: TabId)
    requires WellFormed(r) && r.owner.Some? && r.owner.value != id
    ensures AfterInit(r, id).owner == r.owner
    ensures HeardBy(InitMessages(r, id), id) ==
      [OwnershipDenied(r.owner.value), OwnershipStatus(false, r.owner)]
  {
    var w := AfterRemove(r, id);
    assert w.owner == r.owner;
    var keys := w.keys + [id];
    RemovePreserves(r, id);
    KeepHas(r.keys, {id}, id);
    DistinctAppend(w.keys, id);
    var tail := [Sent(id, OwnershipDenied(r.owner.value))] + StatusRound(keys, r.owner);
    assert InitMessages(r, id) == RemoveMessages(r, id) + tail;
    HeardByConcat(RemoveMessages(r, id), tail, id);
    InitRemovalSilentToSelf(r, id);
    DeniedThenStatus(keys, id, r.owner.value);
  }

  /** A tab that is told it is denied and then gets the status broadcast. */
  lemma {:induction false} DeniedThenStatus(keys: seq<TabId>, id: TabId, o: TabId)
    requires Distinct(keys) && id in keys && o != id
    ensures HeardBy([Sent(id, OwnershipDenied(o))] + StatusRound(keys, Some(o)), id) ==
      [OwnershipDenied(o), OwnershipStatus(false, Some(o))]
  {
    HeardByConcat([Sent(id, OwnershipDenied(o))], StatusRound(keys, Some(o)), id);
    StatusHeardBy(keys, Some(o), id);
  }

  /** What the registering tab hears from `init`: the owner test at the end
      of `init` sees the owner left after the old record was dropped, so the
      tab hears `ownership-granted` then a status saying it owns when there
      is none, and otherwise `ownership-denied` naming that owner then a
      status saying it does not own. */
  lemma {:induction false} InitTellsNewcomer(r: Roster, id: TabId)
    requires WellFormed(r)
    ensures var w := AfterRemove(r, id);
      HeardBy(InitMessages(r, id), id) ==
        if w.owner.None? then [OwnershipGranted(id), OwnershipStatus(true, Some(id))]
        else [OwnershipDenied(w.owner.value), OwnershipStatus(false, w.owner)]
  {
    var w := AfterRemove(r, id);
    var keys := w.keys + [id];
    RemovePreserves(r, id);
    KeepHas(r.keys, {id}, id);
    DistinctAppend(w.keys, id);
    InitRemovalSilentToSelf(r, id);
    var tail := if w.owner.None? then ElectionRound(keys, id)
      else [Sent(id, OwnershipDenied(w.owner.value))] + StatusRound(keys, w.owner);
    assert InitMessages(r, id) == RemoveMessages(r, id) + tail;
    HeardByConcat(RemoveMessages(r, id), tail, id);
    if w.owner.None? {
      ElectionHeardBy(keys, id, id);
    } else {
      DeniedThenStatus(keys, id, w.owner.value);
    }
  }

  /** Re-registering the owner passes ownership to the oldest other tab, or
      back to the same tab when it is alone; the tab is then told it owns
      when alone, and otherwise told it is denied in favour of the new
      owner. */
  lemma {:induction false} InitOfOwner(r: Roster, id: TabId)
    requires WellFormed(r) && r.owner == Some(id)
    ensures AfterInit(r, id).owner ==
      if r.keys[0] != id then Some(r.keys[0])
      else if |r.keys| > 1 then Some(r.keys[1])
      else Some(id)
    ensures HeardBy(InitMessages(r, id), id) ==
      if |r.keys| == 1 then [OwnershipGranted(id), OwnershipStatus(true, Some(id))]
      else
        var next := if r.keys[0] != id then r.keys[0] else r.keys[1];
        [OwnershipDenied(next), OwnershipStatus(false, Some(next))]
  {
    RemoveOwnerElectsNext(r, id);
    InitTellsNewcomer(r, id);
  }

  lemma {:induction false} InitPreserves(r: Roster, id: TabId)
    requires WellFormed(r)
    ensures WellFormed(AfterInit(r, id))
    ensures OldestOwns(r) ==> OldestOwns(AfterInit(r, id))
  {
    InitLeavesOneRecord(r, id);
    RemovePreserves(r, id);
  }

  // ---------------------------------------------------------------------
  // Lemmas about the sweep

  /** The owner the sweep loop leaves, given the owner o0 it started with:
      o0 while it survives, otherwise the first remaining key; no owner stays
      no owner. */
  function Track(o0: Option<TabId>, keys: seq<TabId>): Option<TabId>
  {
    if o0.None? then None else if o0.value in keys then o0 else FirstKey(keys)
  }

  /** Deleting a key that was appended last. */
  lemma {:induction false} KeepLastOut(kept: seq<TabId>, p: TabId)
    requires p !in kept
    ensures Keep(kept + [p], {p}) == Keep(kept, {p})
  {
    assert (kept + [p])[..|kept|] == kept;
  }

  /** Deleting a key from the middle of a key list where it occurs once. */
  lemma {:induction false} KeepMiddle(kept: seq<TabId>, p: TabId, rest: seq<TabId>)
    requires p !in kept && p !in rest
    ensures Keep(kept + [p] + rest, {p}) == kept + rest
  {
    KeepConcat(kept + [p], rest, {p});
    KeepLastOut(kept, p);
    KeepUntouched(kept, {p});
    KeepUntouched(rest, {p});
  }

  /** In a distinct list, the key at position |kept| occurs nowhere else. */
  lemma {:induction false} DistinctSplit(kept: seq<TabId>, p: TabId, rest: seq<TabId>)
    requires Distinct(kept + [p] + rest)
    ensures p !in kept && p !in rest
  {
    var s := kept + [p] + rest;
    assert s[|kept|] == p;
    forall i | 0 <= i < |kept| ensures kept[i] != p {
      assert s[i] == kept[i];
    }
    forall i | 0 <= i < |rest| ensures rest[i] != p {
      assert s[|kept| + 1 + i] == rest[i];
    }
  }

  /** One eviction inside the sweep loop keeps the owner tracked. */
  lemma {:induction false} SweepStep(kept: seq<TabId>, p: TabId, rest: seq<TabId>, w: Roster, o0: Option<TabId>)
    requires w.keys == kept + [p] + rest && Distinct(w.keys)
    requires w.owner == Track(o0, w.keys)
    ensures AfterRemove(w, p).keys == kept + rest
    ensures AfterRemove(w, p).owner == Track(o0, kept + rest)
  {
    DistinctSplit(kept, p, rest);
    KeepMiddle(kept, p, rest);
    var w' := AfterRemove(w, p);
    assert w'.keys == Keep(w.keys, {p});
    if o0.Some? && o0.value !in w.keys && w.keys[0] != p {
      assert w'.keys[0] == w.keys[0];
    }
  }

  /** One iteration of the sweep loop, at position i of the key snapshot. */
  lemma {:induction false} SweepPassUnroll(keys: seq<TabId>, i: nat, r: Roster, doomed: set<TabId>)
    requires i < |keys|
    ensures var r' := if keys[i] in doomed then AfterRemove(r, keys[i]) else r;
            && SweepPass(keys[i..], r, doomed) == SweepPass(keys[i + 1..], r', doomed)
            && SweepPassMessages(keys[i..], r, doomed)
               == (if keys[i] in doomed then RemoveMessages(r, keys[i]) else []) + SweepPassMessages(keys[i + 1..], r', doomed)
  {
    assert keys[i..][1..] == keys[i + 1..];
  }

  /** The sweep loop, from any point: `kept` are the visited keys it kept. */
  lemma {:induction false} SweepPassShape(kept: seq<TabId>, pending: seq<TabId>, w: Roster,
                                          doomed: set<TabId>, o0: Option<TabId>)
    requires w.keys == kept + pending && Distinct(w.keys)
    requires forall t :: t in kept ==> t !in doomed
    requires w.owner == Track(o0, w.keys)
    ensures SweepPass(pending, w, doomed).keys == kept + Keep(pending, doomed)
    ensures SweepPass(pending, w, doomed).owner == Track(o0, kept + Keep(pending, doomed))
    decreases |pending|, 1
  {
    if pending == [] {
      assert Keep(pending, doomed) == [];
      assert kept + Keep(pending, doomed) == kept + pending;
    } else if pending[0] in doomed {
      SweepPassEvict(kept, pending, w, doomed, o0);
    } else {
      SweepPassSpare(kept, pending, w, doomed, o0);
    }
  }

  /** The sweep loop visiting a doomed key. */
  lemma {:induction false} SweepPassEvict(kept: seq<TabId>, pending: seq<TabId>, w: Roster,
                                          doomed: set<TabId>, o0: Option<TabId>)
    requires w.keys == kept + pending && Distinct(w.keys)
    requires forall t :: t in kept ==> t !in doomed
    requires w.owner == Track(o0, w.keys)
    requires pending != [] && pending[0] in doomed
    ensures SweepPass(pending, w, doomed).keys == kept + Keep(pending, doomed)
    ensures SweepPass(pending, w, doomed).owner == Track(o0, kept + Keep(pending, doomed))
    decreases |pending|, 0
  {
    var p, rest := pending[0], pending[1..];
    assert pending == [p] + rest;
    assert w.keys == kept + [p] + rest;
    var w' := AfterRemove(w, p);
    assert SweepPass(pending, w, doomed) == SweepPass(rest, w', doomed);
    SweepStep(kept, p, rest, w, o0);
    KeepDistinct(w.keys, {p});
    SweepPassShape(kept, rest, w', doomed, o0);
    KeepFront(pending, doomed);
    assert Keep(pending, doomed) == Keep(rest, doomed);
  }

  /** The sweep loop visiting a key it keeps. */
  lemma {:induction false} SweepPassSpare(kept: seq<TabId>, pending: seq<TabId>, w: Roster,
                                          doomed: set<TabId>, o0: Option<TabId>)
    requires w.keys == kept + pending && Distinct(w.keys)
    requires forall t :: t in kept ==> t !in doomed
    requires w.owner == Track(o0, w.keys)
    requires pending != [] && pending[0] !in doomed
    ensures SweepPass(pending, w, doomed).keys == kept + Keep(pending, doomed)
    ensures SweepPass(pending, w, doomed).owner == Track(o0, kept + Keep(pending, doomed))
    decreases |pending|, 0
  {
    var p, rest := pending[0], pending[1..];
    assert pending == [p] + rest;
    assert SweepPass(pending, w, doomed) == SweepPass(rest, w, doomed);
    var kept' := kept + [p];
    assert w.keys == kept' + rest;
    forall t | t in kept' ensures t !in doomed {
      assert t in kept || t == p;
    }
    SweepPassShape(kept', rest, w, doomed, o0);
    KeepFront(pending, doomed);
    assert kept' + Keep(rest, doomed) == kept + Keep(pending, doomed);
  }

  /** The sweep evicts exactly the doomed tabs, keeps the others in order,
      and leaves as owner the old owner if it survived, otherwise the first
      survivor (none when nobody survived). */
  lemma {:induction false} SweepEvicts(r: Roster, doomed: set<TabId>)
    requires WellFormed(r)
    ensures AfterSweep(r, doomed).keys == Keep(r.keys, doomed)
    ensures AfterSweep(r, doomed).owner ==
      if r.owner.Some? && r.owner.value !in doomed then r.owner
      else FirstKey(Keep(r.keys, doomed))
    ensures WellFormed(AfterSweep(r, doomed))
  {
    assert r.keys == [] + r.keys;
    KeepDistinct(r.keys, doomed);
    KeepMembers(r.keys, doomed);
    SweepPassShape([], r.keys, r, doomed, r.owner);
    assert [] + Keep(r.keys, doomed) == Keep(r.keys, doomed);
  }

  /** In a state where the owner is the earliest tab, the sweep loop leaves
      an owner whenever it leaves a tab, so the closing "tabs but no owner"
      election never fires. */
  lemma {:induction false} SweepNeverElects(r: Roster, doomed: set<TabId>)
    requires WellFormed(r) && OldestOwns(r)
    ensures SweepPass(r.keys, r, doomed).owner.None? ==> SweepPass(r.keys, r, doomed).keys == []
    ensures AfterSweep(r, doomed) == SweepPass(r.keys, r, doomed)
  {
    var w := SweepPass(r.keys, r, doomed);
    var kept := Keep(r.keys, doomed);
    assert w.keys == kept && w.owner == Track(r.owner, kept) by {
      assert r.keys == [] + r.keys;
      SweepPassShape([], r.keys, r, doomed, r.owner);
    }
    assert w.owner.None? ==> kept == [] by {
      if r.owner.None? {
        assert r.keys == [];
      }
    }
  }


  lemma {:induction false} SweepPreserves(r: Roster, doomed: set<TabId>)
    requires WellFormed(r)
    ensures WellFormed(AfterSweep(r, doomed))
    ensures OldestOwns(r) ==> OldestOwns(AfterSweep(r, doomed))
  {
    SweepEvicts(r, doomed);
    if r.keys != [] && r.keys[0] !in doomed {
      KeepHead(r.keys, doomed);
    }
  }

  // ---------------------------------------------------------------------
  // Lemmas about check-ownership

  /** `check-ownership` changes neither the keys nor the owner; a registered
      asker alone hears whether it owns and who does, and an unregistered
      asker is answered by nobody. */
  lemma {:induction false} CheckOwnershipAnswers(r: Roster, m: Inbound, u: TabId)
    requires m.kind == CheckOwnership && m.tabId.Some?
    ensures Next(r, Delivered(m)) == r
    ensures var t := m.tabId.value;
      HeardBy(Replies(r, m), u) ==
        if u == t && t in r.keys then [OwnershipStatus(r.owner == Some(t), r.owner)] else []
  {
    var t := m.tabId.value;
    if t in r.keys {
      var reply := Sent(t, OwnershipStatus(Some(t) == r.owner, r.owner));
      assert Replies(r, m) == [reply];
      assert HeardBy([reply], u) == (if u == t then [reply.msg] else []) + HeardBy([], u);
    }
  }

  // ---------------------------------------------------------------------
  // Every reachable state

  lemma {:induction false} NextPreserves(r: Roster, e: Event)
    requires WellFormed(r)
    ensures WellFormed(Next(r, e))
    ensures OldestOwns(r) ==> OldestOwns(Next(r, e))
  {
    match e
    case SweepTick(doomed) => SweepPreserves(r, doomed);
    case Delivered(m) =>
      if m.tabId.Some? {
        RemovePreserves(r, m.tabId.value);
        InitPreserves(r, m.tabId.value);
      }
  }

  /** Any run of messages and sweep ticks keeps the keys unique, the owner
      registered and the earliest-registered tab the owner. */
  lemma {:induction false} RunPreserves(r: Roster, events: seq<Event>)
    requires WellFormed(r) && OldestOwns(r)
    ensures WellFormed(Run(r, events)) && OldestOwns(Run(r, events))
    decreases |events|
  {
    if events != [] {
      NextPreserves(r, events[0]);
      RunPreserves(Next(r, events[0]), events[1..]);
    }
  }

  /** Every state reachable from start-up (no tabs, no owner) has distinct
      keys, and an owner exactly when some tab is registered: the
      earliest-registered one. */
  lemma {:induction false} Reachable(events: seq<Event>)
    ensures WellFormed(Run(Roster([], None), events)) && OldestOwns(Run(Roster([], None), events))
    ensures Run(Roster([], None), events).owner.None? <==> Run(Roster([], None), events).keys == []
  {
    RunPreserves(Roster([], None), events);
  }

}
