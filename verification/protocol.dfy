/** Values exchanged between the shared worker and its tabs, and the
    worker's timing constants. */
module Protocol {

  datatype Option<+T> = None | Some(value: T)

  /** A tab id that is present in a message. The worker drops every message
      whose `tabId` is missing or falsy, so such ids never reach the registry;
      at the message boundary a missing id is `None`. */
  type TabId = s: string | s != "" witness "tab"

  /** A handle returned by `setInterval`; browsers hand out positive integers,
      so the truthiness guard before `clearInterval` always passes. */
  type Handle = h: int | h > 0 witness 1

  /** Period of the per-tab `heartbeat-request` ping. Recorded for
      reference only: the firing of the ping is timer behaviour and nothing
      in the model uses it. */
  const HEARTBEAT_INTERVAL: int := 2000
  /** A tab not heard from for longer than this is evicted by the sweep. */
  const HEARTBEAT_TIMEOUT: int := 7000
  /** Period of the eviction sweep. Recorded for reference only: a sweep
      tick is a call to `Sweep`, so nothing in the model uses it. */
  const SWEEP_INTERVAL: int := 1000

  /** Messages the worker posts to a tab. */
  datatype Outbound =
    | OwnershipGranted(grantedTo: TabId)                    // isOwner: true
    | OwnershipDenied(currentOwner: TabId)                  // isOwner: false
    | OwnershipStatus(isOwner: bool, ownerTabId: Option<TabId>)

  /** One posted message and the tab whose record's port carried it. */
  datatype Sent = Sent(to: TabId, msg: Outbound)

  /** The value half of a `tabs` entry: when the tab was last heard from and
      the handle of its ping interval. */
  datatype Entry = Entry(lastSeen: int, ping: Handle)

  /** The `type` field of an inbound message. */
  datatype Kind = Init | Heartbeat | Release | Disconnect | CheckOwnership | Unrecognized

  /** `{ type, tabId, timestamp }` as destructured from `event.data`;
      `timestamp` is `Some` exactly when it is a number. */
  datatype Inbound = Inbound(kind: Kind, tabId: Option<TabId>, timestamp: Option<int>)

  /** The sweep's eviction test: a falsy `lastSeen` (zero) or silence for
      longer than the timeout. */
  predicate Stale(e: Entry, now: int)
  {
    e.lastSeen == 0 || now - e.lastSeen > HEARTBEAT_TIMEOUT
  }
}
