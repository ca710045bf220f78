/** `ActionCableTransport`: the connection flag, the queue of records held back while the
    channel is down, and the two connection-status classes on `document.body`. */
module Transport {
  import opened Common
  import opened Records

  const ConnectedClass := "stimulus-reflex-connected"
  const DisconnectedClass := "stimulus-reflex-disconnected"

  /** An event `emitEvent` dispatches on `document`; `willAttemptReconnect` is the detail of
      the two `disconnected` events and absent otherwise. */
  datatype DocEvent = DocEvent(name: string, willAttemptReconnect: Option<bool>)

  /** The transport's state: `active`, `queue`, the records handed to `subscription.send`
      in order, whether a subscription exists, the body's class list, and the events
      dispatched on `document`. */
  datatype Link = Link(active: bool, queue: seq<Data>, sent: seq<Data>, subscribed: bool,
                       classes: set<string>, events: seq<DocEvent>)

  /** The pair of events each channel callback dispatches: the plain name, then its
      `action-cable:` twin. */
  function ChannelEvents(name: string, detail: Option<bool>): seq<DocEvent> {
    [DocEvent("stimulus-reflex:" + name, detail), DocEvent("stimulus-reflex:action-cable:" + name, detail)]
  }

  /** The class list shows exactly the current status. */
  predicate StatusShown(classes: set<string>, active: bool) {
    (ConnectedClass in classes <==> active) && (DisconnectedClass in classes <==> !active)
  }

  predicate HasStatus(classes: set<string>) {
    ConnectedClass in classes || DisconnectedClass in classes
  }

  /** `classList.replace(a, b)`: no effect unless `a` is present. */
  function Replace(classes: set<string>, a: string, b: string): (r: set<string>)
    ensures a in classes ==> r == classes - {a} + {b}
    ensures a !in classes ==> r == classes
  {
    if a in classes then classes - {a} + {b} else classes
  }

  /** `connectionStatusClass()`: add the status class when neither is present, otherwise
      replace the opposite one. Whatever the list held, it then shows exactly the current
      status and nothing else in it changes. */
  function StatusClasses(classes: set<string>, active: bool): (r: set<string>)
    ensures StatusShown(r, active)
    ensures r - {ConnectedClass, DisconnectedClass} == classes - {ConnectedClass, DisconnectedClass}
  {
    if !HasStatus(classes) then classes + {if active then ConnectedClass else DisconnectedClass}
    else if active then Replace(classes, DisconnectedClass, ConnectedClass)
    else Replace(classes, ConnectedClass, DisconnectedClass)
  }

  /** The UMD build only replaces: a list without either class keeps having neither, and
      one with a status class shows exactly the current status afterwards. */
  function UmdStatusClasses(classes: set<string>, active: bool): (r: set<string>)
    ensures HasStatus(r) <==> HasStatus(classes)
    ensures HasStatus(r) ==> StatusShown(r, active)
    ensures r - {ConnectedClass, DisconnectedClass} == classes - {ConnectedClass, DisconnectedClass}
  {
    if active then Replace(classes, DisconnectedClass, ConnectedClass)
    else Replace(classes, ConnectedClass, DisconnectedClass)
  }

  function ShowStatus(variant: Variant, classes: set<string>, active: bool): set<string> {
    if variant == Primary then StatusClasses(classes, active) else UmdStatusClasses(classes, active)
  }

  /** `enqueueReflex`: send at once when active, otherwise hold the record back. The UMD
      build has no queue and sends directly. */
  function Enqueued(variant: Variant, l: Link, d: Data): (r: Link)
    ensures r.active == l.active && r.subscribed == l.subscribed && r.classes == l.classes
    ensures r.events == l.events
  {
    if variant == Primary && !l.active then l.(queue := l.queue + [d])
    else l.(sent := l.sent + [d])
  }

  /** `connected`: set the flag, show the status, dispatch `stimulus-reflex:connected` and
      its twin, then (primary build) send the queue in order and empty it. */
  function AfterConnect(variant: Variant, l: Link): (r: Link)
    ensures r.active && r.subscribed == l.subscribed
    ensures r.events == l.events + ChannelEvents("connected", None)
  {
    var events := l.events + ChannelEvents("connected", None);
    if variant == Primary then
      Link(true, [], l.sent + l.queue, l.subscribed, StatusClasses(l.classes, true), events)
    else l.(active := true, classes := UmdStatusClasses(l.classes, true), events := events)
  }

  /** `rejected`: clear the flag, show the status, dispatch `stimulus-reflex:rejected` and
      its twin. */
  function AfterReject(variant: Variant, l: Link): (r: Link)
    ensures !r.active && r.queue == l.queue && r.sent == l.sent && r.subscribed == l.subscribed
    ensures r.events == l.events + ChannelEvents("rejected", None)
  {
    l.(active := false, classes := ShowStatus(variant, l.classes, false),
       events := l.events + ChannelEvents("rejected", None))
  }

  /** `disconnected(willAttemptReconnect)`: as `rejected`, but the two events are
      `disconnected` and carry the flag. */
  function AfterDisconnect(variant: Variant, l: Link, willAttemptReconnect: bool): (r: Link)
    ensures !r.active && r.queue == l.queue && r.sent == l.sent && r.subscribed == l.subscribed
    ensures r.events == l.events + ChannelEvents("disconnected", Some(willAttemptReconnect))
  {
    l.(active := false, classes := ShowStatus(variant, l.classes, false),
       events := l.events + ChannelEvents("disconnected", Some(willAttemptReconnect)))
  }

  /** The `DOMContentLoaded` handler. The primary build clears the flag and shows the
      status; the UMD build leaves its flag alone and only swaps the class to
      disconnected, whatever the list held. */
  function AfterContentLoaded(variant: Variant, l: Link): (r: Link)
    ensures variant == Primary ==> !r.active && StatusShown(r.classes, false)
    ensures variant != Primary ==> r.active == l.active && StatusShown(r.classes, false)
    ensures r.classes - {ConnectedClass, DisconnectedClass} == l.classes - {ConnectedClass, DisconnectedClass}
    ensures r.queue == l.queue && r.sent == l.sent && r.subscribed == l.subscribed && r.events == l.events
  {
    if variant == Primary then l.(active := false, classes := StatusClasses(l.classes, false))
    else l.(classes := l.classes - {ConnectedClass} + {DisconnectedClass})
  }

  /** `subscribe`: creates the subscription only when there is none yet. */
  function Subscribed(l: Link): (r: Link)
    ensures r.subscribed
    ensures l.subscribed ==> r == l
    ensures r.active == l.active && r.queue == l.queue && r.sent == l.sent && r.classes == l.classes
  {
    if l.subscribed then l else l.(subscribed := true)
  }

  /** Enqueue sends at once exactly when the channel is active; otherwise the record joins
      the end of the queue and nothing is sent. */
  lemma EnqueueSendsIffActive(l: Link, d: Data)
    ensures Enqueued(Primary, l, d).sent == l.sent + [d] <==> l.active
    ensures l.active ==> Enqueued(Primary, l, d).queue == l.queue
    ensures !l.active ==> Enqueued(Primary, l, d).queue == l.queue + [d]
                          && Enqueued(Primary, l, d).sent == l.sent
  {
    if !l.active {
      assert |Enqueued(Primary, l, d).sent| != |l.sent + [d]|;
    }
  }

  /** The primary build never holds a record back while active. */
  predicate QueueInvariant(l: Link) {
    l.active ==> l.queue == []
  }

  /** What has been handed to the transport, in order: everything sent, then everything
      still queued. */
  function Delivered(l: Link): seq<Data> {
    l.sent + l.queue
  }

  /** Every primary operation keeps the queue empty while active, and the records leave
      in the order they were enqueued: enqueueing appends to `Delivered`, and connecting,
      disconnecting and subscribing leave it as it was. */
  lemma DeliveryOrder(l: Link, d: Data)
    requires QueueInvariant(l)
    ensures QueueInvariant(Enqueued(Primary, l, d))
    ensures Delivered(Enqueued(Primary, l, d)) == Delivered(l) + [d]
    ensures QueueInvariant(AfterConnect(Primary, l)) && Delivered(AfterConnect(Primary, l)) == Delivered(l)
    ensures QueueInvariant(AfterReject(Primary, l)) && Delivered(AfterReject(Primary, l)) == Delivered(l)
    ensures forall w :: QueueInvariant(AfterDisconnect(Primary, l, w)) && Delivered(AfterDisconnect(Primary, l, w)) == Delivered(l)
    ensures QueueInvariant(Subscribed(l)) && Delivered(Subscribed(l)) == Delivered(l)
  {
    if l.active {
      assert l.queue == [];
      assert Delivered(Enqueued(Primary, l, d)) == l.sent + [d] + [];
    }
  }

  /** Records enqueued one after another while disconnected. */
  function EnqueueAll(l: Link, ds: seq<Data>): Link
    decreases |ds|
  {
    if ds == [] then l else EnqueueAll(Enqueued(Primary, l, ds[0]), ds[1..])
  }

  lemma {:induction false} EnqueueAllInactive(l: Link, ds: seq<Data>)
    requires !l.active
    ensures EnqueueAll(l, ds) == l.(queue := l.queue + ds)
    decreases |ds|
  {
    if ds == [] {
      assert l.queue + ds == l.queue;
    } else {
      EnqueueAllInactive(Enqueued(Primary, l, ds[0]), ds[1..]);
      assert l.queue + [ds[0]] + ds[1..] == l.queue + ds;
    }
  }

  /** Reflexes triggered while the channel is down are sent, in the order they were
      triggered, when it connects, and the queue is left empty. */
  lemma QueuedSentOnConnect(l: Link, ds: seq<Data>)
    requires !l.active
    ensures AfterConnect(Primary, EnqueueAll(l, ds)).sent == l.sent + l.queue + ds
    ensures AfterConnect(Primary, EnqueueAll(l, ds)).queue == []
  {
    EnqueueAllInactive(l, ds);
    assert l.sent + (l.queue + ds) == l.sent + l.queue + ds;
  }

  /** Subscribing twice is subscribing once. */
  lemma SubscribeIdempotent(l: Link)
    ensures Subscribed(Subscribed(l)) == Subscribed(l)
  {
  }

  class ActionCableTransport {
    const variant: Variant
    var active: bool
    var queue: seq<Data>
    var sent: seq<Data>
    var subscribed: bool
    var classes: set<string>
    var events: seq<DocEvent>

    function Snapshot(): Link
      reads this
    {
      Link(active, queue, sent, subscribed, classes, events)
    }

    /** Before `DOMContentLoaded` the flag is `undefined`, which reads as inactive. */
    constructor(variant: Variant, classes: set<string>)
      ensures this.variant == variant
      ensures Snapshot() == Link(false, [], [], false, classes, [])
    {
      this.variant := variant;
      active := false;
      queue := [];
      sent := [];
      subscribed := false;
      this.classes := classes;
      events := [];
    }

    method ConnectionStatusClass()
      modifies this
      ensures Snapshot() == old(Snapshot()).(classes := ShowStatus(variant, old(classes), old(active)))
    {
      if variant == Primary {
        if !(ConnectedClass in classes || DisconnectedClass in classes) {
          classes := classes + {if active then ConnectedClass else DisconnectedClass};
          return;
        }
      }
      if active {
        classes := Replace(classes, DisconnectedClass, ConnectedClass);
      } else {
        classes := Replace(classes, ConnectedClass, DisconnectedClass);
      }
    }

    method Enqueue(d: Data)
      modifies this
      ensures Snapshot() == Enqueued(variant, old(Snapshot()), d)
    {
      if variant == Primary && !active {
        queue := queue + [d];
      } else {
        sent := sent + [d];
      }
    }

    method Connected()
      modifies this
      ensures Snapshot() == AfterConnect(variant, old(Snapshot()))
    {
      active := true;
      ConnectionStatusClass();
      events := events + ChannelEvents("connected", None);
      if variant == Primary {
        var i := 0;
        while i < |queue|
          invariant 0 <= i <= |queue|
          invariant sent == old(sent) + queue[..i]
          invariant queue == old(queue) && active
          invariant classes == StatusClasses(old(classes), true)
          invariant subscribed == old(subscribed)
          invariant events == old(events) + ChannelEvents("connected", None)
        {
          sent := sent + [queue[i]];
          assert queue[..i + 1] == queue[..i] + [queue[i]];
          i := i + 1;
        }
        assert queue[..|queue|] == queue;
        queue := [];
      }
    }

    method Rejected()
      modifies this
      ensures Snapshot() == AfterReject(variant, old(Snapshot()))
    {
      active := false;
      ConnectionStatusClass();
      events := events + ChannelEvents("rejected", None);
    }

    method Disconnected(willAttemptReconnect: bool)
      modifies this
      ensures Snapshot() == AfterDisconnect(variant, old(Snapshot()), willAttemptReconnect)
    {
      active := false;
      ConnectionStatusClass();
      events := events + ChannelEvents("disconnected", Some(willAttemptReconnect));
    }

    method ContentLoaded()
      modifies this
      ensures Snapshot() == AfterContentLoaded(variant, old(Snapshot()))
    {
      if variant == Primary {
        active := false;
        ConnectionStatusClass();
      } else {
        classes := classes - {ConnectedClass} + {DisconnectedClass};
      }
    }

    method Subscribe()
      modifies this
      ensures Snapshot() == Subscribed(old(Snapshot()))
    {
      if subscribed {
        return;
      }
      subscribed := true;
    }
  }
}
