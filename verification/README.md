# Tab ownership coordinator — a Dafny model

`tab-shared-worker.js` is the script of a browser SharedWorker that every
open tab of an application connects to. The worker keeps a registry of tabs
(a JavaScript `Map`, which iterates in insertion order, from tab id to the
time the tab was last heard from and the handle of a per-tab ping interval).
It also keeps one owner id, `ownerTabId`. Exactly one tab should act as the
owner. Whenever the owner leaves or stops answering, the earliest-registered
remaining tab takes over. Tabs talk to the worker with `init`, `heartbeat`,
`release`, `disconnect` and `check-ownership` messages. The worker answers
with `ownership-granted`, `ownership-denied` and `ownership-status`. A
one-second sweep evicts tabs that have been silent for more than 7000 ms.

The model has three modules:

- `Protocol` (protocol.dfy): tab ids, the inbound and outbound messages,
  a registry entry, the timing constants and the sweep's staleness test.
- `Registry` (registry.dfy): a value-level reference model. A `Roster` is
  the registry's keys in insertion order together with the owner. It has
  functions for what `removeTab`, `init` and the sweep do to the roster
  and which messages they post. It holds the lemmas that state what the
  worker promises: who hears what, the uniqueness of keys, who owns after
  each step, and the invariant of every reachable state.
- `TabWorker` (worker.dfy): the worker itself, as a class `SharedWorker`.
  Its fields are the map (`order` holds the keys in insertion order and
  `entries` holds the values), `owner`, the running ping intervals
  (`timers`), the next interval handle, and `outbox`, the sequence of every
  message posted so far. Every helper of the script that changes state is a
  method that updates these fields in place, with loops where the script
  loops; `pickNextOwner`, a pure read, is the function `PickNextOwner`. The
  methods that change the roster or post a round of messages tie the new
  roster and the new outbox to the Registry functions, and the Registry
  lemmas then say what those mean. The heartbeat's effect on a record is the
  function `TabWorker.Touch`.

Time is a parameter `now` (the script reads `Date.now()`). A message is
delivered by calling `OnMessage` with its fields, and a sweep tick by calling
`Sweep(now)`. Posting a message appends it to `outbox`, addressed to the
tab whose registry entry carried the port.

One property goes beyond what the script states: the owner is always the
earliest-registered tab (`Registry.OldestOwns`), and there is an owner exactly
when some tab is registered (`Registry.Reachable`). So, in every reachable
state, the sweep's closing "tabs but no owner" election never fires
(`Registry.SweepNeverElects`).

A `heartbeat` stores whatever numeric timestamp the tab sends, so a tab's
last-seen time can move backwards (even to 0, which makes the next sweep
evict it); `TabWorker.HeartbeatRewinds` and `TabWorker.ZeroStampDooms` state
this.

## Model

| member | source | states |
|---|---|---|
| Registry.KeepMembers | c28sdcm1jv977n4u63yccbty376l23p0xc38n0b2l4qgrje4d2xwjou9g76xdglsprhbpo1f5dhil392v5xeileb94p8g3le9f/tab-shared-worker.js:51 | after `tabs.delete`, a key is present exactly when it was present and is not the deleted one |
| Registry.KeepHead | c28sdcm1jv977n4u63yccbty376l23p0xc38n0b2l4qgrje4d2xwjou9g76xdglsprhbpo1f5dhil392v5xeileb94p8g3le9f/tab-shared-worker.js:51 | deleting keys other than the first leaves the first key first (the Map keeps insertion order) |
| Registry.KeepDistinct | c28sdcm1jv977n4u63yccbty376l23p0xc38n0b2l4qgrje4d2xwjou9g76xdglsprhbpo1f5dhil392v5xeileb94p8g3le9f/tab-shared-worker.js:51 | deleting keys never creates a duplicate key |
| Registry.StatusHeardBy | c28sdcm1jv977n4u63yccbty376l23p0xc38n0b2l4qgrje4d2xwjou9g76xdglsprhbpo1f5dhil392v5xeileb94p8g3le9f/tab-shared-worker.js:15-25 | a status broadcast reaches each registered tab exactly once, names the current owner, and tells a tab it owns exactly when it is the owner; unregistered tabs hear nothing |
| Registry.StatusMarksOnlyOwner | c28sdcm1jv977n4u63yccbty376l23p0xc38n0b2l4qgrje4d2xwjou9g76xdglsprhbpo1f5dhil392v5xeileb94p8g3le9f/tab-shared-worker.js:15-25 | two tabs both told `isOwner: true` by one broadcast are the same tab, and it is the owner |
| Registry.HeardByNotify | c28sdcm1jv977n4u63yccbty376l23p0xc38n0b2l4qgrje4d2xwjou9g76xdglsprhbpo1f5dhil392v5xeileb94p8g3le9f/tab-shared-worker.js:36-40 | the denial loop of `setOwner` reaches each listed tab exactly once and no other tab |
| Registry.ElectionHeardBy | c28sdcm1jv977n4u63yccbty376l23p0xc38n0b2l4qgrje4d2xwjou9g76xdglsprhbpo1f5dhil392v5xeileb94p8g3le9f/tab-shared-worker.js:32-43 | after `setOwner(x)`, x hears granted and then a status saying it owns; every other registered tab hears denied naming x and then a status saying it does not own; no one else hears anything |
| Registry.RemovePreserves | c28sdcm1jv977n4u63yccbty376l23p0xc38n0b2l4qgrje4d2xwjou9g76xdglsprhbpo1f5dhil392v5xeileb94p8g3le9f/tab-shared-worker.js:45-64 | removal keeps keys unique and the owner registered, and keeps the owner the earliest-registered tab |
| Registry.RemoveOwnerElectsNext | c28sdcm1jv977n4u63yccbty376l23p0xc38n0b2l4qgrje4d2xwjou9g76xdglsprhbpo1f5dhil392v5xeileb94p8g3le9f/tab-shared-worker.js:53-60 | removing the owner makes the first remaining key in insertion order the owner, or no one when no tab remains |
| Registry.RemoveTellsResult | c28sdcm1jv977n4u63yccbty376l23p0xc38n0b2l4qgrje4d2xwjou9g76xdglsprhbpo1f5dhil392v5xeileb94p8g3le9f/tab-shared-worker.js:53-63 | after removing a registered tab, the removed tab hears nothing, and every remaining tab's last message is a status naming the new owner and whether it is that owner |
| Registry.InitLeavesOneRecord | c28sdcm1jv977n4u63yccbty376l23p0xc38n0b2l4qgrje4d2xwjou9g76xdglsprhbpo1f5dhil392v5xeileb94p8g3le9f/tab-shared-worker.js:94-108 | after `init` of an id, already registered or not, exactly one key for it exists, at the end of the insertion order, and every other key keeps its relative place |
| Registry.InitRemovalSilentToSelf | c28sdcm1jv977n4u63yccbty376l23p0xc38n0b2l4qgrje4d2xwjou9g76xdglsprhbpo1f5dhil392v5xeileb94p8g3le9f/tab-shared-worker.js:94-96 | dropping the old record of a re-registering tab sends that tab nothing |
| Registry.InitWithoutOwner | c28sdcm1jv977n4u63yccbty376l23p0xc38n0b2l4qgrje4d2xwjou9g76xdglsprhbpo1f5dhil392v5xeileb94p8g3le9f/tab-shared-worker.js:110-111 | `init` with no owner makes the new tab the owner; it hears granted and then a status saying it owns |
| Registry.InitWithOtherOwner | c28sdcm1jv977n4u63yccbty376l23p0xc38n0b2l4qgrje4d2xwjou9g76xdglsprhbpo1f5dhil392v5xeileb94p8g3le9f/tab-shared-worker.js:112-115 | `init` while another tab owns leaves the owner unchanged; the new tab hears denied naming the owner and then a status saying it does not own |
| Registry.InitTellsNewcomer | c28sdcm1jv977n4u63yccbty376l23p0xc38n0b2l4qgrje4d2xwjou9g76xdglsprhbpo1f5dhil392v5xeileb94p8g3le9f/tab-shared-worker.js:94-115 | the registering tab hears nothing from the drop of its old record; then, if no owner is left after that drop, it hears granted and a status saying it owns, and otherwise denied naming the remaining owner and a status saying it does not own |
| Registry.InitOfOwner | c28sdcm1jv977n4u63yccbty376l23p0xc38n0b2l4qgrje4d2xwjou9g76xdglsprhbpo1f5dhil392v5xeileb94p8g3le9f/tab-shared-worker.js:94-115 | re-registering the owner passes ownership to the earliest other tab, or back to the same tab when it is alone; when alone it hears granted then a status saying it owns, otherwise denied naming the new owner then a status saying it does not own |
| Registry.InitPreserves | c28sdcm1jv977n4u63yccbty376l23p0xc38n0b2l4qgrje4d2xwjou9g76xdglsprhbpo1f5dhil392v5xeileb94p8g3le9f/tab-shared-worker.js:91-117 | `init` keeps keys unique and the owner registered, and keeps the owner the earliest-registered tab |
| Registry.SweepPassShape | c28sdcm1jv977n4u63yccbty376l23p0xc38n0b2l4qgrje4d2xwjou9g76xdglsprhbpo1f5dhil392v5xeileb94p8g3le9f/tab-shared-worker.js:68-72 | the sweep loop, from any point, leaves the surviving keys in order and keeps the old owner while it survives, otherwise the first survivor |
| Registry.SweepEvicts | c28sdcm1jv977n4u63yccbty376l23p0xc38n0b2l4qgrje4d2xwjou9g76xdglsprhbpo1f5dhil392v5xeileb94p8g3le9f/tab-shared-worker.js:66-80 | the sweep removes exactly the stale tabs and keeps the others in order; the owner afterwards is the old owner if it survived, otherwise the first survivor, or no one when no tab survives |
| Registry.SweepNeverElects | c28sdcm1jv977n4u63yccbty376l23p0xc38n0b2l4qgrje4d2xwjou9g76xdglsprhbpo1f5dhil392v5xeileb94p8g3le9f/tab-shared-worker.js:66-80 | when the owner is the earliest tab, the sweep loop leaves an owner whenever it leaves a tab, so the closing election at lines 74-79 changes nothing |
| Registry.SweepPreserves | c28sdcm1jv977n4u63yccbty376l23p0xc38n0b2l4qgrje4d2xwjou9g76xdglsprhbpo1f5dhil392v5xeileb94p8g3le9f/tab-shared-worker.js:66-80 | the sweep keeps keys unique and the owner registered, and keeps the owner the earliest-registered tab |
| Registry.CheckOwnershipAnswers | c28sdcm1jv977n4u63yccbty376l23p0xc38n0b2l4qgrje4d2xwjou9g76xdglsprhbpo1f5dhil392v5xeileb94p8g3le9f/tab-shared-worker.js:131-139 | `check-ownership` changes neither the registry nor the owner; only the asking tab, if registered, hears a status saying whether it owns and who does |
| Registry.NextPreserves | c28sdcm1jv977n4u63yccbty376l23p0xc38n0b2l4qgrje4d2xwjou9g76xdglsprhbpo1f5dhil392v5xeileb94p8g3le9f/tab-shared-worker.js:87-141 | every message and every sweep tick keeps keys unique and the owner registered, and keeps the owner the earliest-registered tab |
| Registry.RunPreserves | c28sdcm1jv977n4u63yccbty376l23p0xc38n0b2l4qgrje4d2xwjou9g76xdglsprhbpo1f5dhil392v5xeileb94p8g3le9f/tab-shared-worker.js:87-141 | any sequence of messages and sweep ticks keeps the keys unique, the owner registered, and the owner the earliest-registered tab |
| Registry.Reachable | c28sdcm1jv977n4u63yccbty376l23p0xc38n0b2l4qgrje4d2xwjou9g76xdglsprhbpo1f5dhil392v5xeileb94p8g3le9f/tab-shared-worker.js:4-141 | in every state reachable from start-up (no tabs, no owner), keys are unique, the owner is the earliest-registered tab, and there is an owner exactly when some tab is registered |
| TabWorker.PingsDelete | c28sdcm1jv977n4u63yccbty376l23p0xc38n0b2l4qgrje4d2xwjou9g76xdglsprhbpo1f5dhil392v5xeileb94p8g3le9f/tab-shared-worker.js:48-51 | clearing a deleted record's interval stops exactly that interval |
| TabWorker.PingsAdd | c28sdcm1jv977n4u63yccbty376l23p0xc38n0b2l4qgrje4d2xwjou9g76xdglsprhbpo1f5dhil392v5xeileb94p8g3le9f/tab-shared-worker.js:98-108 | a new record's interval is added to the running ones |
| TabWorker.PingsTouch | c28sdcm1jv977n4u63yccbty376l23p0xc38n0b2l4qgrje4d2xwjou9g76xdglsprhbpo1f5dhil392v5xeileb94p8g3le9f/tab-shared-worker.js:122 | updating `lastSeen` leaves the running intervals unchanged |
| TabWorker.Touch | c28sdcm1jv977n4u63yccbty376l23p0xc38n0b2l4qgrje4d2xwjou9g76xdglsprhbpo1f5dhil392v5xeileb94p8g3le9f/tab-shared-worker.js:119-122 | a heartbeat changes the `lastSeen` of its own registered tab only; the set of keys and every ping handle stay the same |
| TabWorker.HeartbeatKeepsAlive | c28sdcm1jv977n4u63yccbty376l23p0xc38n0b2l4qgrje4d2xwjou9g76xdglsprhbpo1f5dhil392v5xeileb94p8g3le9f/tab-shared-worker.js:122 | a heartbeat without a timestamp, received at a positive time, keeps its tab out of every sweep until 7000 ms have passed |
| TabWorker.HeartbeatRewinds | c28sdcm1jv977n4u63yccbty376l23p0xc38n0b2l4qgrje4d2xwjou9g76xdglsprhbpo1f5dhil392v5xeileb94p8g3le9f/tab-shared-worker.js:122 | a heartbeat whose timestamp is older than the record's `lastSeen` moves `lastSeen` backwards |
| TabWorker.ZeroStampDooms | c28sdcm1jv977n4u63yccbty376l23p0xc38n0b2l4qgrje4d2xwjou9g76xdglsprhbpo1f5dhil392v5xeileb94p8g3le9f/tab-shared-worker.js:122 | a heartbeat carrying timestamp 0 makes its tab stale at every time, so the next sweep evicts it |
| TabWorker.SharedWorker.constructor | c28sdcm1jv977n4u63yccbty376l23p0xc38n0b2l4qgrje4d2xwjou9g76xdglsprhbpo1f5dhil392v5xeileb94p8g3le9f/tab-shared-worker.js:4-5 | the worker starts with no tabs, no owner, no intervals and nothing sent |
| TabWorker.SharedWorker.PostToTab | c28sdcm1jv977n4u63yccbty376l23p0xc38n0b2l4qgrje4d2xwjou9g76xdglsprhbpo1f5dhil392v5xeileb94p8g3le9f/tab-shared-worker.js:7-13 | a message is delivered to a registered tab and is dropped for an unregistered one |
| TabWorker.SharedWorker.BroadcastStatus | c28sdcm1jv977n4u63yccbty376l23p0xc38n0b2l4qgrje4d2xwjou9g76xdglsprhbpo1f5dhil392v5xeileb94p8g3le9f/tab-shared-worker.js:15-25 | posts one status per registered tab, in insertion order (the round `Registry.StatusHeardBy` describes) |
| TabWorker.SharedWorker.PickNextOwner | c28sdcm1jv977n4u63yccbty376l23p0xc38n0b2l4qgrje4d2xwjou9g76xdglsprhbpo1f5dhil392v5xeileb94p8g3le9f/tab-shared-worker.js:27-30 | returns no tab exactly when none is registered, and otherwise a registered tab: the first in insertion order |
| TabWorker.SharedWorker.SetOwner | c28sdcm1jv977n4u63yccbty376l23p0xc38n0b2l4qgrje4d2xwjou9g76xdglsprhbpo1f5dhil392v5xeileb94p8g3le9f/tab-shared-worker.js:32-43 | makes x the owner, keeps the invariant, and posts the election round that `Registry.ElectionHeardBy` describes |
| TabWorker.SharedWorker.DenyOthers | c28sdcm1jv977n4u63yccbty376l23p0xc38n0b2l4qgrje4d2xwjou9g76xdglsprhbpo1f5dhil392v5xeileb94p8g3le9f/tab-shared-worker.js:36-40 | posts `ownership-denied` naming x to every registered tab except x, in insertion order |
| TabWorker.SharedWorker.RemoveTab | c28sdcm1jv977n4u63yccbty376l23p0xc38n0b2l4qgrje4d2xwjou9g76xdglsprhbpo1f5dhil392v5xeileb94p8g3le9f/tab-shared-worker.js:45-64 | keeps the invariant; an unregistered id changes nothing and sends nothing; otherwise exactly that record is deleted, its interval is stopped, all other records are unchanged, and the owner and the messages are those of `Registry.AfterRemove` and `Registry.RemoveMessages`; the owner stays the earliest tab |
| TabWorker.SharedWorker.DeleteRecord | c28sdcm1jv977n4u63yccbty376l23p0xc38n0b2l4qgrje4d2xwjou9g76xdglsprhbpo1f5dhil392v5xeileb94p8g3le9f/tab-shared-worker.js:46-51 | stops the tab's interval and deletes its record, keeping the other keys in order |
| TabWorker.SharedWorker.HandOver | c28sdcm1jv977n4u63yccbty376l23p0xc38n0b2l4qgrje4d2xwjou9g76xdglsprhbpo1f5dhil392v5xeileb94p8g3le9f/tab-shared-worker.js:53-63 | if the removed tab owned, the first remaining tab becomes owner (or no one); everyone then hears the result; the owner is always registered afterwards |
| TabWorker.SharedWorker.Sweep | c28sdcm1jv977n4u63yccbty376l23p0xc38n0b2l4qgrje4d2xwjou9g76xdglsprhbpo1f5dhil392v5xeileb94p8g3le9f/tab-shared-worker.js:66-80 | keeps the invariant; the tabs left are exactly the non-stale ones, with unchanged records; the roster and messages are those of `Registry.AfterSweep` and `Registry.SweepMessages`; the owner stays the earliest tab |
| TabWorker.SharedWorker.EvictStale | c28sdcm1jv977n4u63yccbty376l23p0xc38n0b2l4qgrje4d2xwjou9g76xdglsprhbpo1f5dhil392v5xeileb94p8g3le9f/tab-shared-worker.js:68-72 | the loop over a snapshot of the keys does what the live Map iteration does: it removes each stale tab in order, with the messages each removal posts |
| TabWorker.SharedWorker.EvictIfStale | c28sdcm1jv977n4u63yccbty376l23p0xc38n0b2l4qgrje4d2xwjou9g76xdglsprhbpo1f5dhil392v5xeileb94p8g3le9f/tab-shared-worker.js:69-71 | one visited tab is removed exactly when it is stale |
| TabWorker.SharedWorker.ElectIfOwnerless | c28sdcm1jv977n4u63yccbty376l23p0xc38n0b2l4qgrje4d2xwjou9g76xdglsprhbpo1f5dhil392v5xeileb94p8g3le9f/tab-shared-worker.js:74-79 | with no owner and tabs left, the first tab becomes owner with a full election round; otherwise nothing changes |
| TabWorker.SharedWorker.OnInit | c28sdcm1jv977n4u63yccbty376l23p0xc38n0b2l4qgrje4d2xwjou9g76xdglsprhbpo1f5dhil392v5xeileb94p8g3le9f/tab-shared-worker.js:91-117 | keeps the invariant; the old record of the id, if any, is replaced by one record last seen at `now` with a fresh interval; the old interval is stopped; the owner and messages are those of `Registry.AfterInit` and `Registry.InitMessages` |
| TabWorker.SharedWorker.AddRecord | c28sdcm1jv977n4u63yccbty376l23p0xc38n0b2l4qgrje4d2xwjou9g76xdglsprhbpo1f5dhil392v5xeileb94p8g3le9f/tab-shared-worker.js:98-108 | starts a fresh interval and appends the id's record, last seen at `now`, at the end of the insertion order |
| TabWorker.SharedWorker.Announce | c28sdcm1jv977n4u63yccbty376l23p0xc38n0b2l4qgrje4d2xwjou9g76xdglsprhbpo1f5dhil392v5xeileb94p8g3le9f/tab-shared-worker.js:110-115 | the new tab becomes owner when there is none; otherwise it alone hears denied naming the owner, then everyone hears the status |
| TabWorker.SharedWorker.OnHeartbeat | c28sdcm1jv977n4u63yccbty376l23p0xc38n0b2l4qgrje4d2xwjou9g76xdglsprhbpo1f5dhil392v5xeileb94p8g3le9f/tab-shared-worker.js:118-124 | keeps the invariant; the records become `Touch` of the old ones: for a registered tab only its `lastSeen` changes, to the sent timestamp or else to `now`; an unknown id changes nothing |
| TabWorker.SharedWorker.OnCheckOwnership | c28sdcm1jv977n4u63yccbty376l23p0xc38n0b2l4qgrje4d2xwjou9g76xdglsprhbpo1f5dhil392v5xeileb94p8g3le9f/tab-shared-worker.js:131-139 | only the asking tab, if registered, hears whether it owns and who owns; nothing else changes |
| TabWorker.SharedWorker.OnMessage | c28sdcm1jv977n4u63yccbty376l23p0xc38n0b2l4qgrje4d2xwjou9g76xdglsprhbpo1f5dhil392v5xeileb94p8g3le9f/tab-shared-worker.js:87-141 | dispatches on the message type and keeps the invariant. The roster and the replies follow `Registry.Next` and `Registry.Replies`. The records, the running intervals and the handle counter change as the handler for that type says: `heartbeat` as `Touch`; `release`/`disconnect` delete the record and stop its interval; `init` replaces the record with a fresh one and starts a new interval. A message without a tab id, or of an unknown or query-only type, leaves the records and intervals unchanged. Only `init` advances the handle counter. |

## Left out

- The SharedWorker connection plumbing (`self.onconnect`, `event.ports[0]`, `port.start()`, wiring `port.onmessage`) is browser I/O. A message is a call to `OnMessage`, and a posted message is addressed by the tab id whose record holds the port.
- `setInterval`, `clearInterval` and `Date.now()` are replaced by abstract handles and a `now` parameter. Interval handles are modelled as positive integers handed out in increasing order, as browsers do, so the `if (entry.pingIntervalId)` guard always passes. The firing of the 2000 ms `heartbeat-request` ping and the scheduling of the 1000 ms sweep are timer behaviour and are not modelled; a sweep tick is a call to `Sweep`.
- `try { postMessage } catch {}`: sending cannot fail in the model, and every post is appended to `outbox`.
- JavaScript truthiness of ids: a tab id is a non-empty string, and a message without one is `None` and changes nothing. `setOwner` is only ever called with a registered id, so its `if (ownerTabId)` guard is always true and its null branch is not modelled. The `if (nextOwner)` guard at the end of the sweep is kept; it always passes there.
- `HEARTBEAT_INTERVAL` and `SWEEP_INTERVAL` are kept as constants for reference; nothing in the model uses them, because timer firing is not modelled.
- Timestamps are integers. A non-numeric `timestamp` is `None`. Fractional, `NaN` or infinite numbers are not modelled.
- Registry.Keep: its own contract only bounds the length; the facts about the keys that survive are the separate lemmas KeepMembers, KeepHead and KeepDistinct.
