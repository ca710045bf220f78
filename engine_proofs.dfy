/** Properties of the engine's steps: how `received` partitions and gates a batch, the
    counter thresholds, the outcome table, stage chaining and clean-up, settle-once, and
    the invariants every step keeps. */
module EngineProofs {
  import opened Common
  import opened Naming
  import Dom
  import Form
  import opened Dataset
  import opened Records
  import opened Transport
  import opened Engine

  // ----- partition -----

  lemma {:induction false} ReverseMultiset<T>(xs: seq<T>)
    ensures multiset(Reverse(xs)) == multiset(xs)
    decreases |xs|
  {
    if xs != [] {
      ReverseMultiset(xs[1..]);
      assert xs == [xs[0]] + xs[1..];
    }
  }

  lemma {:induction false} SplitMultiset(ops: seq<Operation>)
    ensures multiset(Tagged(ops)) + multiset(Untagged(ops)) == multiset(ops)
    decreases |ops|
  {
    if ops != [] {
      SplitMultiset(ops[1..]);
      assert ops == [ops[0]] + ops[1..];
    }
  }

  /** `received` loses and invents nothing: the tagged operations (reversed) and the
      untagged ones (in order) together are exactly the batch, every tagged one on the
      first side and every untagged one on the second. */
  lemma Partition(ops: seq<Operation>)
    ensures multiset(Reverse(Tagged(ops))) + multiset(Untagged(ops)) == multiset(ops)
    ensures forall o :: o in Reverse(Tagged(ops)) <==> o in ops && IsTagged(o)
    ensures forall o :: o in Untagged(ops) <==> o in ops && !IsTagged(o)
  {
    ReverseMultiset(Tagged(ops));
    SplitMultiset(ops);
    forall o
      ensures o in Reverse(Tagged(ops)) <==> o in ops && IsTagged(o)
      ensures o in Untagged(ops) <==> o in ops && !IsTagged(o)
    {
      assert o in Reverse(Tagged(ops)) <==> o in multiset(Reverse(Tagged(ops)));
      assert o in ops <==> o in multiset(ops);
    }
  }

  /** Some tagged operation of the batch carries a page address other than `location`. */
  ghost predicate ForeignPage(ops: seq<Operation>, location: string) {
    exists o :: o in ops && IsTagged(o) && o.stimulusReflex.value.url != location
  }

  lemma {:induction false} UrlMismatchExists(xs: seq<Operation>, location: string)
    ensures UrlMismatch(xs, location) <==>
            exists o :: o in xs && IsTagged(o) && o.stimulusReflex.value.url != location
    decreases |xs|
  {
    if xs != [] {
      UrlMismatchExists(xs[1..], location);
      assert forall o :: o in xs <==> o == xs[0] || o in xs[1..];
    }
  }

  /** The page check in `received` looks at every tagged operation, whatever the order. */
  lemma UrlCheckSeesAll(ops: seq<Operation>, location: string)
    ensures UrlMismatch(Reverse(Tagged(ops)), location) <==> ForeignPage(ops, location)
  {
    UrlMismatchExists(Reverse(Tagged(ops)), location);
    Partition(ops);
  }

  // ----- received -----

  /** A batch that is not CableReady's, has another executor version, or carries an
      operation for another page is dropped: no record, bookkeeping entry, deferred
      action or performed operation changes. */
  lemma ReceivedDropsBatch(cfg: Config, s: State, doc: Dom.Document, location: string, batch: Batch)
    requires cfg.variant != Module
    requires !batch.cableReady || NormalisedVersion(batch.version) != cfg.cableReadyVersion
             || ForeignPage(batch.operations, location)
    ensures Received(cfg, s, doc, location, batch).0 == s
  {
    UrlCheckSeesAll(batch.operations, location);
  }

  /** The reflex a batch answers: the one of its last tagged operation, which `received`
      collects first. */
  function ReplyId(ops: seq<Operation>): ReflexId
    requires Tagged(ops) != []
  {
    ReverseTagged(ops);
    Reverse(Tagged(ops))[0].stimulusReflex.value.reflexId
  }

  /** The reflex metadata of the last tagged operation. */
  function ReplyData(ops: seq<Operation>): Data
    requires Tagged(ops) != []
  {
    ReverseTagged(ops);
    Reverse(Tagged(ops))[0].stimulusReflex.value
  }

  predicate Accepted(cfg: Config, location: string, batch: Batch) {
    batch.cableReady && NormalisedVersion(batch.version) == cfg.cableReadyVersion
    && !UrlMismatch(Reverse(Tagged(batch.operations)), location)
  }

  /** A reply for a known reflex resets its counters to the number of tagged operations,
      keeps the untagged ones for afterwards, and performs the tagged ones; nothing else
      changes. */
  lemma ReceivedKnownReflex(cfg: Config, s: State, doc: Dom.Document, location: string, batch: Batch)
    requires cfg.variant != Module && Accepted(cfg, location, batch)
    requires Tagged(batch.operations) != [] && ReplyId(batch.operations) in s.reflexes
    ensures var (s', receipt) := Received(cfg, s, doc, location, batch);
            var id := ReplyId(batch.operations);
            var n := |Tagged(batch.operations)|;
            receipt == Performed
            && s'.reflexes == s.reflexes[id := s.reflexes[id].(totalOperations := n, pendingOperations := n,
                                                               completedOperations := 0,
                                                               piggybackOperations := Untagged(batch.operations))]
            && s'.performed == s.performed + [Reverse(Tagged(batch.operations))]
            && s'.(reflexes := s.reflexes, performed := s.performed) == s
  {
  }

  /** With isolation on, a reply for a reflex this tab did not start changes nothing. */
  lemma ReceivedIsolated(cfg: Config, s: State, doc: Dom.Document, location: string, batch: Batch)
    requires cfg.variant != Module && cfg.isolate && Accepted(cfg, location, batch)
    requires Tagged(batch.operations) != [] && ReplyId(batch.operations) !in s.reflexes
    ensures Received(cfg, s, doc, location, batch) == (s, Unregistered)
  {
  }

  /** Without isolation, an unknown reflex whose controller element is gone is a TypeError
      before anything is written. */
  lemma ReceivedControllerGone(cfg: Config, s: State, doc: Dom.Document, location: string, batch: Batch)
    requires cfg.variant != Module && !cfg.isolate && Accepted(cfg, location, batch)
    requires Tagged(batch.operations) != [] && ReplyId(batch.operations) !in s.reflexes
    requires Resolve(doc, ReplyData(batch.operations).xpathController).None?
    ensures Received(cfg, s, doc, location, batch) == (s, ControllerMissing)
  {
  }

  // ----- lifecycle frame -----

  /** Dispatching a stage only emits events, calls callbacks and removes bookkeeping
      entries of that reflex; the registry, the promises, the deferred actions, the
      performed batches and the transport are untouched. Without a record for the id
      nothing is removed. */
  lemma {:induction false} DispatchFrame(cfg: Config, s: State, stage: string, re: Option<ElementKey>,
                                         ce: Option<ElementKey>, id: ReflexId, payload: Option<Payload>)
    ensures var s' := Dispatch(cfg, s, stage, re, ce, id, payload);
            s'.reflexes == s.reflexes && s'.promises == s.promises && s'.tasks == s.tasks
            && s'.performed == s.performed && s'.link == s.link
            && s'.reflexController.Keys <= s.reflexController.Keys
            && s'.reflexData.Keys <= s.reflexData.Keys && s'.reflexError.Keys <= s.reflexError.Keys
            && (id !in s.reflexes ==> s'.reflexController == s.reflexController
                                      && s'.reflexData == s.reflexData && s'.reflexError == s.reflexError)
    decreases Rank(stage), 1
  {
    if !(ce.None? || !HasController(s, ce.value, id) || (ce.value, id) !in s.reflexData) {
      var s1 := s.(events := s.events + [Emitted(ce.value, "stimulus-reflex:" + stage, id, payload)]);
      ListenerFrame(cfg, s1, stage, re, ce.value, id, payload);
    }
  }

  lemma {:induction false} ListenerFrame(cfg: Config, s: State, stage: string, re: Option<ElementKey>,
                                         ce: ElementKey, id: ReflexId, payload: Option<Payload>)
    ensures var s' := Listener(cfg, s, stage, re, ce, id, payload);
            s'.reflexes == s.reflexes && s'.promises == s.promises && s'.tasks == s.tasks
            && s'.performed == s.performed && s'.link == s.link
            && s'.reflexController.Keys <= s.reflexController.Keys
            && s'.reflexData.Keys <= s.reflexData.Keys && s'.reflexError.Keys <= s.reflexError.Keys
            && (id !in s.reflexes ==> s'.reflexController == s.reflexController
                                      && s'.reflexData == s.reflexData && s'.reflexError == s.reflexError)
    decreases Rank(stage), 0
  {
    if stage == "nothing" {
      DispatchFrame(cfg, s, "success", re, Some(ce), id, payload);
    } else if stage == "success" || stage == "error" {
      var s1 := Invoke(cfg, s, stage, Some(ce), id, payload);
      InvokeFrame(cfg, s, stage, Some(ce), id, payload);
      DispatchFrame(cfg, s1, "after", re, Some(ce), id, payload);
    } else {
      InvokeFrame(cfg, s, stage, Some(ce), id, payload);
    }
  }

  /** A callback invocation appends calls and, at the final stage, removes the id's three
      entries; without a record for the id it removes nothing. */
  lemma InvokeFrame(cfg: Config, s: State, stage: string, ce: Option<ElementKey>, id: ReflexId,
                    payload: Option<Payload>)
    ensures var s' := Invoke(cfg, s, stage, ce, id, payload);
            s'.reflexes == s.reflexes && s'.promises == s.promises && s'.tasks == s.tasks
            && s'.performed == s.performed && s'.link == s.link && s'.events == s.events
            && s'.reflexController.Keys <= s.reflexController.Keys
            && s'.reflexData.Keys <= s.reflexData.Keys && s'.reflexError.Keys <= s.reflexError.Keys
            && (id !in s.reflexes ==> s'.reflexController == s.reflexController
                                      && s'.reflexData == s.reflexData && s'.reflexError == s.reflexError)
  {
  }

  /** A reply for a reflex another tab started, with isolation off, creates bookkeeping
      for it on its controller element, registers a record whose final stage is
      `finalize` with a new pending promise, and sets that record's counters. */
  lemma ReceivedClones(cfg: Config, s: State, doc: Dom.Document, location: string, batch: Batch)
    requires cfg.variant != Module && !cfg.isolate && Accepted(cfg, location, batch)
    requires Tagged(batch.operations) != [] && ReplyId(batch.operations) !in s.reflexes
    requires Resolve(doc, ReplyData(batch.operations).xpathController).Some?
    ensures var (s', receipt) := Received(cfg, s, doc, location, batch);
            var id := ReplyId(batch.operations);
            var n := |Tagged(batch.operations)|;
            var ce := Resolve(doc, ReplyData(batch.operations).xpathController).value;
            receipt == Performed
            && s'.reflexes == s.reflexes[id := Reflex("finalize", |s.promises|, n, n, 0, Untagged(batch.operations))]
            && s'.promises == s.promises + [Pending]
            && s'.performed == s.performed + [Reverse(Tagged(batch.operations))]
            && (ce, id) in s'.reflexData && s'.reflexData[(ce, id)].reflexId == id
  {
    var reflexOps := Reverse(Tagged(batch.operations));
    ReverseTagged(batch.operations);
    var data := reflexOps[0].stimulusReflex.value.(payload := reflexOps[0].payload);
    var ce := Resolve(doc, data.xpathController).value;
    var slot := (ce, data.reflexId);
    var s1 := s.(reflexController := s.reflexController[slot := ControllerNamed(cfg, ce, data.reflexController)],
                 reflexData := s.reflexData[slot := data]);
    DispatchFrame(cfg, s1, "before", Resolve(doc, data.xpathElement), Some(ce), data.reflexId, data.payload);
  }

  // ----- operation hooks -----

  /** `beforeDOMUpdate` counts one pending operation down. Only when none is left does it
      schedule anything: the `success` stage always, preceded by the resolve exactly when
      the reflex does not resolve late. Nothing else changes. */
  lemma BeforeThreshold(s: State, doc: Dom.Document, ev: OperationEvent)
    requires ev.stimulusReflex.Some? && ev.stimulusReflex.value.reflexId in s.reflexes
    ensures var sr := ev.stimulusReflex.value;
            var r := s.reflexes[sr.reflexId];
            var (s', threw) := BeforeDOMUpdate(s, doc, ev);
            var added := s'.tasks[|s.tasks|..];
            !threw
            && s'.reflexes == s.reflexes[sr.reflexId := r.(pendingOperations := r.pendingOperations - 1)]
            && |s'.tasks| >= |s.tasks| && s'.tasks[..|s.tasks|] == s.tasks
            && (added != [] <==> r.pendingOperations - 1 <= 0)
            && (SettleResolve(r.promise, ev.payload) in added <==> r.pendingOperations - 1 <= 0 && !sr.resolveLate)
            && (added != [] ==> added[|added| - 1].DispatchStage? && added[|added| - 1].stage == "success")
            && s'.(reflexes := s.reflexes, tasks := s.tasks) == s
  {
    var sr := ev.stimulusReflex.value;
    var r := s.reflexes[sr.reflexId];
    var s' := BeforeDOMUpdate(s, doc, ev).0;
    var added := s'.tasks[|s.tasks|..];
    var resolve := SettleResolve(r.promise, ev.payload);
    if r.pendingOperations - 1 <= 0 {
      var success := DispatchStage("success", Resolve(doc, sr.xpathElement),
                                   Resolve(doc, sr.xpathController), sr.reflexId, ev.payload);
      if sr.resolveLate {
        assert added == [success];
      } else {
        assert added == [resolve, success];
      }
    } else {
      assert added == [];
    }
  }

  /** `afterDOMUpdate` counts one completed operation up. Only when all are done does it
      schedule the `finalize` stage, preceded by the resolve exactly when the reflex
      resolves late, and only then does it perform the piggyback operations. */
  lemma AfterThreshold(s: State, doc: Dom.Document, ev: OperationEvent)
    requires ev.stimulusReflex.Some? && ev.stimulusReflex.value.reflexId in s.reflexes
    ensures var sr := ev.stimulusReflex.value;
            var r := s.reflexes[sr.reflexId];
            var done := r.completedOperations + 1 >= r.totalOperations;
            var (s', threw) := AfterDOMUpdate(s, doc, ev);
            var added := s'.tasks[|s.tasks|..];
            !threw
            && s'.reflexes == s.reflexes[sr.reflexId := r.(completedOperations := r.completedOperations + 1)]
            && |s'.tasks| >= |s.tasks| && s'.tasks[..|s.tasks|] == s.tasks
            && (added != [] <==> done)
            && (SettleResolve(r.promise, ev.payload) in added <==> done && sr.resolveLate)
            && (added != [] ==> added[|added| - 1].DispatchStage? && added[|added| - 1].stage == "finalize")
            && s'.performed == s.performed + (if done && |r.piggybackOperations| > 0
                                              then [r.piggybackOperations] else [])
            && s'.(reflexes := s.reflexes, tasks := s.tasks, performed := s.performed) == s
  {
    var sr := ev.stimulusReflex.value;
    var r := s.reflexes[sr.reflexId];
    var s' := AfterDOMUpdate(s, doc, ev).0;
    var added := s'.tasks[|s.tasks|..];
    var resolve := SettleResolve(r.promise, ev.payload);
    if r.completedOperations + 1 >= r.totalOperations {
      var finalize := DispatchStage("finalize", Resolve(doc, sr.xpathElement),
                                    Resolve(doc, sr.xpathController), sr.reflexId, ev.payload);
      if sr.resolveLate {
        assert added == [resolve, finalize];
      } else {
        assert added == [finalize];
      }
    } else {
      assert added == [];
    }
  }

  /** Events without reflex metadata are ignored, and an id without a record is the
      source's TypeError, which changes nothing either. */
  lemma HooksIgnore(s: State, doc: Dom.Document, ev: OperationEvent)
    requires ev.stimulusReflex.None? || ev.stimulusReflex.value.reflexId !in s.reflexes
    ensures BeforeDOMUpdate(s, doc, ev).0 == s && AfterDOMUpdate(s, doc, ev).0 == s
    ensures BeforeDOMUpdate(s, doc, ev).1 <==> ev.stimulusReflex.Some?
    ensures AfterDOMUpdate(s, doc, ev).1 <==> ev.stimulusReflex.Some?
  {
  }

  // ----- routeReflexEvent -----

  /** The outcome table: `nothing` and `error` end at `after`, `halted` and `forbidden` at
      themselves. */
  lemma FinalStageTable()
    ensures FinalStageOf("nothing") == "after" && FinalStageOf("error") == "after"
    ensures FinalStageOf("halted") == "halted" && FinalStageOf("forbidden") == "forbidden"
  {
  }

  /** A routed outcome sets the final stage, schedules a reject carrying the body for
      `error` and a resolve otherwise, then the outcome's own stage; the body is stored as
      the reflex's error only for `error` on a present controller element; the piggyback
      operations are performed when there are any. */
  lemma RouteOutcome(cfg: Config, s: State, doc: Dom.Document, msg: ServerMessage)
    requires msg.stimulusReflex.Some? && EventType(msg.name).Some?
    requires Routed(cfg.variant, EventType(msg.name).value)
    requires msg.stimulusReflex.value.reflexId in s.reflexes
    ensures var t := EventType(msg.name).value;
            var sr := msg.stimulusReflex.value;
            var r := s.reflexes[sr.reflexId];
            var ce := Resolve(doc, sr.xpathController);
            var (s', threw) := Route(cfg, s, doc, msg);
            !threw
            && s'.reflexes == s.reflexes[sr.reflexId := r.(finalStage := FinalStageOf(t))]
            && |s'.tasks| == |s.tasks| + 2 && s'.tasks[..|s.tasks|] == s.tasks
            && (s'.tasks[|s.tasks|].SettleReject? <==> t == "error")
            && (t == "error" ==> s'.tasks[|s.tasks|] == SettleReject(r.promise, msg.body))
            && (t != "error" ==> s'.tasks[|s.tasks|] == SettleResolve(r.promise, msg.payload))
            && s'.tasks[|s.tasks| + 1] == DispatchStage(t, Resolve(doc, sr.xpathElement), ce, sr.reflexId, msg.payload)
            && (t == "error" && ce.Some? ==> s'.reflexError == s.reflexError[(ce.value, sr.reflexId) := msg.body])
            && (t != "error" || ce.None? ==> s'.reflexError == s.reflexError)
            && s'.performed == s.performed + (if |r.piggybackOperations| > 0 then [r.piggybackOperations] else [])
            && s'.promises == s.promises && s'.reflexData == s.reflexData
  {
  }

  /** Messages without reflex metadata or with another outcome are ignored; in the UMD and
      module builds that includes `forbidden`. */
  lemma RouteIgnores(cfg: Config, s: State, doc: Dom.Document, msg: ServerMessage)
    requires msg.stimulusReflex.None? || EventType(msg.name).None?
             || !Routed(cfg.variant, EventType(msg.name).value)
    ensures Route(cfg, s, doc, msg) == (s, false)
  {
  }

  lemma ForbiddenOnlyInPrimary(variant: Variant)
    ensures Routed(variant, "forbidden") <==> variant == Primary
  {
  }

  // ----- settle-once -----

  /** No settled promise changes and none disappears. */
  predicate KeepsSettled(a: seq<Settlement>, b: seq<Settlement>) {
    |a| <= |b| && forall i :: 0 <= i < |a| && !a[i].Pending? ==> b[i] == a[i]
  }

  lemma KeepsSettledTransitive(a: seq<Settlement>, b: seq<Settlement>, c: seq<Settlement>)
    requires KeepsSettled(a, b) && KeepsSettled(b, c)
    ensures KeepsSettled(a, c)
  {
  }

  /** A promise settles at most once: a second `resolve` or `reject` leaves the first
      outcome, and settling one promise leaves the others alone. */
  lemma SettleOnce(s: State, p: nat, v: Settlement, w: Settlement)
    requires p < |s.promises| && s.promises[p].Pending? && !v.Pending?
    ensures Settle(s, p, v).promises[p] == v
    ensures Settle(Settle(s, p, v), p, w).promises == Settle(s, p, v).promises
    ensures forall i :: 0 <= i < |s.promises| && i != p ==> Settle(s, p, v).promises[i] == s.promises[i]
  {
  }

  /** `beforeDOMUpdate` may meet a count already at zero or below and schedule a second
      resolve; running both settles the promise with the first value. */
  lemma RepeatedResolveKeepsFirst(s: State, p: nat, v1: Option<Payload>, v2: Option<Payload>)
    requires p < |s.promises| && s.promises[p].Pending?
    ensures Settle(Settle(s, p, Resolved(v1)), p, Resolved(v2)).promises[p] == Resolved(v1)
  {
  }

  lemma SettleKeeps(s: State, p: nat, v: Settlement)
    ensures KeepsSettled(s.promises, Settle(s, p, v).promises)
  {
  }

  /** Every step of the engine keeps every settled promise as it was. */
  lemma ReceivedKeepsSettled(cfg: Config, s: State, doc: Dom.Document, location: string, batch: Batch)
    requires cfg.variant != Module
    ensures KeepsSettled(s.promises, Received(cfg, s, doc, location, batch).0.promises)
  {
    if batch.cableReady && NormalisedVersion(batch.version) == cfg.cableReadyVersion
       && !UrlMismatch(Reverse(Tagged(batch.operations)), location) && Tagged(batch.operations) != [] {
      var reflexOps := Reverse(Tagged(batch.operations));
      ReverseTagged(batch.operations);
      var data := reflexOps[0].stimulusReflex.value.(payload := reflexOps[0].payload);
      var ce := Resolve(doc, data.xpathController);
      if data.reflexId !in s.reflexes && !cfg.isolate && ce.Some? {
        var slot := (ce.value, data.reflexId);
        var s1 := s.(reflexController := s.reflexController[slot := ControllerNamed(cfg, ce.value, data.reflexController)],
                     reflexData := s.reflexData[slot := data]);
        DispatchFrame(cfg, s1, "before", Resolve(doc, data.xpathElement), Some(ce.value), data.reflexId, data.payload);
      }
    }
  }

  lemma HooksKeepSettled(cfg: Config, s: State, doc: Dom.Document, ev: OperationEvent, msg: ServerMessage)
    ensures BeforeDOMUpdate(s, doc, ev).0.promises == s.promises
    ensures AfterDOMUpdate(s, doc, ev).0.promises == s.promises
    ensures Route(cfg, s, doc, msg).0.promises == s.promises
  {
  }

  lemma RunNextKeepsSettled(cfg: Config, s: State, page: Page, form: Option<Form.FormSnapshot>)
    requires s.tasks != [] && Runnable(page, s.tasks[0])
    ensures KeepsSettled(s.promises, RunNext(cfg, s, page, form).promises)
  {
    var t := s.tasks[0];
    var s0 := s.(tasks := s.tasks[1..]);
    if t.DispatchStage? {
      DispatchFrame(cfg, s0, t.stage, t.reflexElement, t.controllerElement, t.reflexId, t.payload);
    }
  }

  // ----- lifecycle callbacks and clean-up -----

  /** The callbacks come specific first, then generic, and only those the controller
      defines. */
  lemma CallbackOrder(cfg: Config, c: ControllerRef, stage: string, target: string, id: ReflexId,
                      err: Option<string>, payload: Option<Payload>)
    ensures var calls := CallbacksFor(cfg, c, stage, target, id, err, payload);
            var defined := if c in cfg.methods then cfg.methods[c] else {};
            var specific := SpecificLifecycleMethodName(stage, target);
            var generic := GenericLifecycleMethodName(stage);
            (specific in defined && generic in defined ==>
               calls == [Call(c, specific, id, err, payload), Call(c, generic, id, err, payload)])
            && (forall i :: 0 <= i < |calls| ==> calls[i].callback in defined && calls[i].controller == c
                                                 && calls[i].reflexId == id && calls[i].error == err)
            && (specific !in defined && generic !in defined <==> calls == [])
  {
  }

  /** Invoking the final stage calls the callbacks with the stored error and then removes
      the reflex's three entries for that controller element and no others; any other
      stage leaves the entries. */
  lemma InvokeClears(cfg: Config, s: State, stage: string, ce: ElementKey, id: ReflexId, payload: Option<Payload>)
    requires (ce, id) in s.reflexData && HasController(s, ce, id)
    ensures var s' := Invoke(cfg, s, stage, Some(ce), id, payload);
            var slot := (ce, id);
            var err := if slot in s.reflexError then Some(s.reflexError[slot]) else None;
            s'.calls == s.calls + CallbacksFor(cfg, s.reflexController[slot].value, stage,
                                               s.reflexData[slot].target, id, err, payload)
            && (id in s.reflexes && stage == s.reflexes[id].finalStage ==>
                  s'.reflexController == s.reflexController - {slot}
                  && s'.reflexData == s.reflexData - {slot} && s'.reflexError == s.reflexError - {slot})
            && (!(id in s.reflexes && stage == s.reflexes[id].finalStage) ==>
                  s'.reflexController == s.reflexController
                  && s'.reflexData == s.reflexData && s'.reflexError == s.reflexError)
  {
  }

  /** No controller element, no registered controller or no data: nothing is dispatched. */
  lemma DispatchGuard(cfg: Config, s: State, stage: string, re: Option<ElementKey>,
                      ce: Option<ElementKey>, id: ReflexId, payload: Option<Payload>)
    requires ce.None? || !HasController(s, ce.value, id) || (ce.value, id) !in s.reflexData
    ensures Dispatch(cfg, s, stage, re, ce, id, payload) == s
    ensures Invoke(cfg, s, stage, ce, id, payload) == s
  {
  }

  /** The stages dispatching a stage runs through: `nothing` continues with `success`,
      `success` and `error` with `after`, every other stage with nothing. */
  function Chain(stage: string): (r: seq<string>)
    ensures r != [] && r[0] == stage
    decreases Rank(stage)
  {
    if stage == "nothing" then [stage] + Chain("success")
    else if stage == "success" || stage == "error" then [stage] + Chain("after")
    else [stage]
  }

  function Last(xs: seq<string>): string
    requires xs != []
  {
    xs[|xs| - 1]
  }

  /** The events of a chain, nested: each stage's event, then what its listener dispatches,
      then its method-specific event. */
  function ChainEvents(stage: string, ce: ElementKey, id: ReflexId, target: string,
                       payload: Option<Payload>): seq<Emitted>
    decreases Rank(stage)
  {
    var inner := if stage == "nothing" then ChainEvents("success", ce, id, target, payload)
                 else if stage == "success" || stage == "error" then ChainEvents("after", ce, id, target, payload)
                 else [];
    [Emitted(ce, "stimulus-reflex:" + stage, id, payload)] + inner
    + [Emitted(ce, ActionName(stage, target), id, payload)]
  }

  /** Neither `success` nor `error` is the reflex's final stage, so the chain they start
      keeps the bookkeeping until its last stage. */
  predicate ChainKeeps(s: State, id: ReflexId) {
    id in s.reflexes ==> s.reflexes[id].finalStage != "success" && s.reflexes[id].finalStage != "error"
  }

  lemma Nest<T>(a: seq<T>, head: T, inner: seq<T>, tail: T)
    ensures a + [head] + inner + [tail] == a + ([head] + inner + [tail])
  {
  }

  /** With a registered controller and data, dispatching a stage emits exactly the events
      of its chain, in nesting order. */
  lemma {:induction false} DispatchChain(cfg: Config, s: State, stage: string, re: Option<ElementKey>,
                                         ce: ElementKey, id: ReflexId, payload: Option<Payload>)
    requires HasController(s, ce, id) && (ce, id) in s.reflexData && ChainKeeps(s, id)
    ensures Dispatch(cfg, s, stage, re, Some(ce), id, payload).events
            == s.events + ChainEvents(stage, ce, id, s.reflexData[(ce, id)].target, payload)
    decreases Rank(stage), 1
  {
    var target := s.reflexData[(ce, id)].target;
    var head := Emitted(ce, "stimulus-reflex:" + stage, id, payload);
    var tail := Emitted(ce, ActionName(stage, target), id, payload);
    var s1 := s.(events := s.events + [head]);
    var s2 := Listener(cfg, s1, stage, re, ce, id, payload);
    assert Dispatch(cfg, s, stage, re, Some(ce), id, payload) == s2.(events := s2.events + [tail]);
    ListenerChain(cfg, s1, stage, re, ce, id, payload);
    var inner := if stage == "nothing" then ChainEvents("success", ce, id, target, payload)
                 else if stage == "success" || stage == "error" then ChainEvents("after", ce, id, target, payload)
                 else [];
    assert s2.events == s.events + [head] + inner;
    assert ChainEvents(stage, ce, id, target, payload) == [head] + inner + [tail];
    Nest(s.events, head, inner, tail);
  }

  lemma {:induction false} ListenerChain(cfg: Config, s: State, stage: string, re: Option<ElementKey>,
                                         ce: ElementKey, id: ReflexId, payload: Option<Payload>)
    requires HasController(s, ce, id) && (ce, id) in s.reflexData && ChainKeeps(s, id)
    ensures var inner := if stage == "nothing" then ChainEvents("success", ce, id, s.reflexData[(ce, id)].target, payload)
                         else if stage == "success" || stage == "error"
                         then ChainEvents("after", ce, id, s.reflexData[(ce, id)].target, payload)
                         else [];
            Listener(cfg, s, stage, re, ce, id, payload).events == s.events + inner
    decreases Rank(stage), 0
  {
    if stage == "nothing" {
      DispatchChain(cfg, s, "success", re, ce, id, payload);
    } else if stage == "success" || stage == "error" {
      var s1 := Invoke(cfg, s, stage, Some(ce), id, payload);
      InvokeClears(cfg, s, stage, ce, id, payload);
      InvokeFrame(cfg, s, stage, Some(ce), id, payload);
      DispatchChain(cfg, s1, "after", re, ce, id, payload);
    } else {
      InvokeFrame(cfg, s, stage, Some(ce), id, payload);
    }
  }

  /** The stages whose listener invokes callbacks in a build. */
  predicate Invokes(variant: Variant, stage: string) {
    stage in {"before", "success", "error", "halted", "after", "finalize"}
    || (stage == "forbidden" && variant == Primary)
  }

  /** When the chain ends at the reflex's final stage, dispatching it leaves no bookkeeping
      for the reflex on that controller element. */
  lemma {:induction false} DispatchClears(cfg: Config, s: State, stage: string, re: Option<ElementKey>,
                                          ce: ElementKey, id: ReflexId, payload: Option<Payload>)
    requires HasController(s, ce, id) && (ce, id) in s.reflexData && ChainKeeps(s, id)
    requires id in s.reflexes && s.reflexes[id].finalStage == Last(Chain(stage))
    requires Invokes(cfg.variant, Last(Chain(stage)))
    ensures var s' := Dispatch(cfg, s, stage, re, Some(ce), id, payload);
            (ce, id) !in s'.reflexController && (ce, id) !in s'.reflexData && (ce, id) !in s'.reflexError
    decreases Rank(stage), 1
  {
    var s1 := s.(events := s.events + [Emitted(ce, "stimulus-reflex:" + stage, id, payload)]);
    ListenerClears(cfg, s1, stage, re, ce, id, payload);
  }

  lemma {:induction false} ListenerClears(cfg: Config, s: State, stage: string, re: Option<ElementKey>,
                                          ce: ElementKey, id: ReflexId, payload: Option<Payload>)
    requires HasController(s, ce, id) && (ce, id) in s.reflexData && ChainKeeps(s, id)
    requires id in s.reflexes && s.reflexes[id].finalStage == Last(Chain(stage))
    requires Invokes(cfg.variant, Last(Chain(stage)))
    ensures var s' := Listener(cfg, s, stage, re, ce, id, payload);
            (ce, id) !in s'.reflexController && (ce, id) !in s'.reflexData && (ce, id) !in s'.reflexError
    decreases Rank(stage), 0
  {
    if stage == "nothing" {
      assert Chain(stage) == [stage] + Chain("success");
      DispatchClears(cfg, s, "success", re, ce, id, payload);
    } else if stage == "success" || stage == "error" {
      var s1 := Invoke(cfg, s, stage, Some(ce), id, payload);
      InvokeClears(cfg, s, stage, ce, id, payload);
      InvokeFrame(cfg, s, stage, Some(ce), id, payload);
      assert Chain(stage) == [stage] + Chain("after");
      DispatchClears(cfg, s1, "after", re, ce, id, payload);
    } else {
      InvokeClears(cfg, s, stage, ce, id, payload);
    }
  }

  /** The outcomes as the server reports them: after `nothing` and `error` the clean-up
      happens at `after`, after `halted` and `forbidden` at themselves, after a normal
      reply at `finalize`. */
  lemma OutcomeChainsEndAtFinalStage()
    ensures Chain("nothing") == ["nothing", "success", "after"] && Last(Chain("nothing")) == FinalStageOf("nothing")
    ensures Chain("error") == ["error", "after"] && Last(Chain("error")) == FinalStageOf("error")
    ensures Chain("halted") == ["halted"] && Last(Chain("halted")) == FinalStageOf("halted")
    ensures Chain("forbidden") == ["forbidden"] && Last(Chain("forbidden")) == FinalStageOf("forbidden")
    ensures Chain("finalize") == ["finalize"]
  {
  }

  // ----- invariant -----

  /** The final stages a record can hold: its initial `finalize` and the ones an outcome
      sets. */
  predicate AllowedFinalStage(stage: string) {
    stage == "finalize" || stage == "after" || stage == "halted" || stage == "forbidden"
  }

  predicate SettlesExisting(t: Task, n: nat) {
    (t.SettleResolve? || t.SettleReject?) ==> t.promise < n
  }

  /** Every record's final stage is one the engine sets and its promise exists, and every
      scheduled settlement is of an existing promise. */
  predicate Consistent(s: State) {
    (forall id :: id in s.reflexes ==> AllowedFinalStage(s.reflexes[id].finalStage)
                                       && s.reflexes[id].promise < |s.promises|)
    && (forall i :: 0 <= i < |s.tasks| ==> SettlesExisting(s.tasks[i], |s.promises|))
  }

  /** A consistent registry never ends a chain early. */
  lemma ConsistentKeepsChains(s: State, id: ReflexId)
    requires Consistent(s)
    ensures ChainKeeps(s, id)
    ensures id in s.reflexes ==> s.reflexes[id].finalStage != "before"
  {
  }

  lemma RegisterConsistent(s: State, d: Data)
    requires Consistent(s)
    ensures Consistent(Register(s, d).0)
    ensures KeepsSettled(s.promises, Register(s, d).0.promises)
  {
  }

  lemma ReceivedConsistent(cfg: Config, s: State, doc: Dom.Document, location: string, batch: Batch)
    requires cfg.variant != Module && Consistent(s)
    ensures Consistent(Received(cfg, s, doc, location, batch).0)
  {
    if batch.cableReady && NormalisedVersion(batch.version) == cfg.cableReadyVersion
       && !UrlMismatch(Reverse(Tagged(batch.operations)), location) && Tagged(batch.operations) != [] {
      var reflexOps := Reverse(Tagged(batch.operations));
      ReverseTagged(batch.operations);
      var data := reflexOps[0].stimulusReflex.value.(payload := reflexOps[0].payload);
      var ce := Resolve(doc, data.xpathController);
      if data.reflexId !in s.reflexes && !cfg.isolate && ce.Some? {
        var slot := (ce.value, data.reflexId);
        var s1 := s.(reflexController := s.reflexController[slot := ControllerNamed(cfg, ce.value, data.reflexController)],
                     reflexData := s.reflexData[slot := data]);
        var s2 := Dispatch(cfg, s1, "before", Resolve(doc, data.xpathElement), Some(ce.value), data.reflexId, data.payload);
        DispatchFrame(cfg, s1, "before", Resolve(doc, data.xpathElement), Some(ce.value), data.reflexId, data.payload);
        RegisterConsistent(s2, data);
      }
    }
  }

  lemma HooksConsistent(cfg: Config, s: State, doc: Dom.Document, ev: OperationEvent, msg: ServerMessage)
    requires Consistent(s)
    ensures Consistent(BeforeDOMUpdate(s, doc, ev).0)
    ensures Consistent(AfterDOMUpdate(s, doc, ev).0)
    ensures Consistent(Route(cfg, s, doc, msg).0)
  {
  }

  lemma RunNextConsistent(cfg: Config, s: State, page: Page, form: Option<Form.FormSnapshot>)
    requires s.tasks != [] && Runnable(page, s.tasks[0]) && Consistent(s)
    ensures Consistent(RunNext(cfg, s, page, form))
  {
    var t := s.tasks[0];
    var s0 := s.(tasks := s.tasks[1..]);
    assert Consistent(s0) by {
      forall i | 0 <= i < |s0.tasks| ensures SettlesExisting(s0.tasks[i], |s0.promises|) {
        assert s0.tasks[i] == s.tasks[i + 1];
      }
    }
    if t.DispatchStage? {
      DispatchFrame(cfg, s0, t.stage, t.reflexElement, t.controllerElement, t.reflexId, t.payload);
    }
  }

  // ----- stimulate -----

  /** A number input holding text that is not a number aborts before anything happens;
      the UMD build throws when the connection is not open or the subscription was
      rejected, checking the connection first; only the UMD build throws. */
  lemma StimulateRefuses(cfg: Config, s: State, page: Page, controller: ControllerRef, identifier: string,
                         ce: ElementKey, target: Option<string>, args: seq<Arg>, url: string, tabId: string,
                         generated: string, open: bool)
    requires cfg.variant != Module && ValidCall(page, ce, args)
    ensures var (s', o) := Stimulate(cfg, s, page, controller, identifier, ce, target, args, url, tabId, generated, open);
            (BadInput(page, ReflexElementOf(args, ce)) ==> s' == s && o == Aborted)
            && (!BadInput(page, ReflexElementOf(args, ce)) && cfg.variant == Umd && !open ==>
                  s' == s && o == Threw(NotOpen))
            && (!BadInput(page, ReflexElementOf(args, ce)) && cfg.variant == Umd && open && !s.link.active ==>
                  s' == s && o == Threw(SubscriptionRejected))
            && (o.Threw? ==> cfg.variant == Umd)
  {
  }

  /** `before` is never a final stage the engine sets, so dispatching it keeps the
      reflex's entries; its stage event comes first. */
  lemma BeforeKeepsEntries(cfg: Config, s: State, re: Option<ElementKey>, ce: ElementKey, id: ReflexId)
    requires HasController(s, ce, id) && (ce, id) in s.reflexData
    requires id in s.reflexes ==> s.reflexes[id].finalStage != "before"
    ensures var s' := Dispatch(cfg, s, "before", re, Some(ce), id, None);
            s'.reflexController == s.reflexController && s'.reflexData == s.reflexData
            && s'.reflexError == s.reflexError
            && |s'.events| > |s.events| && s'.events[|s.events|] == Emitted(ce, "stimulus-reflex:" + "before", id, None)
            && s'.(events := s.events, calls := s.calls) == s
  {
    var head := Emitted(ce, "stimulus-reflex:" + "before", id, None);
    var sA := s.(events := s.events + [head]);
    var sB := Invoke(cfg, sA, "before", Some(ce), id, None);
    InvokeClears(cfg, sA, "before", ce, id, None);
    InvokeFrame(cfg, sA, "before", Some(ce), id, None);
    assert Listener(cfg, sA, "before", re, ce, id, None) == sB;
    var action := Emitted(ce, ActionName("before", s.reflexData[(ce, id)].target), id, None);
    assert Dispatch(cfg, s, "before", re, Some(ce), id, None) == sB.(events := sB.events + [action]);
  }

  /** A started reflex: registered with final stage `finalize`, zero counters and a new
      pending promise, whose index is returned with the record's id; the controller and
      the record are stored for the controller element, where the `before` event is the
      first one emitted; the send is scheduled after everything already scheduled; nothing
      is sent yet. */
  lemma StimulateStarts(cfg: Config, s: State, page: Page, controller: ControllerRef, identifier: string,
                        ce: ElementKey, target: Option<string>, args: seq<Arg>, url: string, tabId: string,
                        generated: string, open: bool)
    requires cfg.variant != Module && ValidCall(page, ce, args) && Consistent(s)
    requires !BadInput(page, ReflexElementOf(args, ce))
    requires cfg.variant == Umd ==> open && s.link.active
    ensures var (s', o) := Stimulate(cfg, s, page, controller, identifier, ce, target, args, url, tabId, generated, open);
            var d := Outbound(page, ce, identifier, target, args, url, tabId, generated);
            var slot := (ce, d.reflexId);
            o == Started(d.reflexId, |s.promises|)
            && s'.reflexes == s.reflexes[d.reflexId := Reflex("finalize", |s.promises|, 0, 0, 0, [])]
            && s'.promises == s.promises + [Pending]
            && |s'.tasks| == |s.tasks| + 1 && s'.tasks[..|s.tasks|] == s.tasks
            && s'.tasks[|s.tasks|].SendReflex? && s'.tasks[|s.tasks|].data == d
            && s'.tasks[|s.tasks|].ownerElement == ce && s'.tasks[|s.tasks|].reflexId == d.reflexId
            && s'.tasks[|s.tasks|].element == ReflexElementOf(args, ce)
            && s'.tasks[|s.tasks|].options == OptionsOf(ArgsAfterElement(args))
            && slot in s'.reflexController && s'.reflexController[slot] == Some(controller)
            && slot in s'.reflexData && s'.reflexData[slot] == d
            && |s'.events| > |s.events| && s'.events[|s.events|] == Emitted(ce, "stimulus-reflex:" + "before", d.reflexId, None)
            && s'.link == s.link && s'.performed == s.performed
  {
    var re := ReflexElementOf(args, ce);
    var d := Outbound(page, ce, identifier, target, args, url, tabId, generated);
    var id := d.reflexId;
    var slot := (ce, id);
    var s1 := s.(reflexController := s.reflexController[slot := Some(controller)],
                 reflexData := s.reflexData[slot := d]);
    ConsistentKeepsChains(s, id);
    var s2 := Dispatch(cfg, s1, "before", Some(re), Some(ce), id, None);
    BeforeKeepsEntries(cfg, s1, Some(re), ce, id);
    var send := SendReflex(ce, id, re, OptionsOf(ArgsAfterElement(args)), d);
    var s3 := s2.(tasks := s2.tasks + [send]);
    assert Stimulate(cfg, s, page, controller, identifier, ce, target, args, url, tabId, generated, open)
           == (Register(s3, d).0, Started(id, |s.promises|));
  }

  lemma ScheduledSendConsistent(s: State, s': State, t: Task)
    requires Consistent(s) && t.SendReflex?
    requires s'.reflexes == s.reflexes && s'.promises == s.promises && s'.tasks == s.tasks + [t]
    ensures Consistent(s')
  {
    forall i | 0 <= i < |s'.tasks| ensures SettlesExisting(s'.tasks[i], |s'.promises|) {
      if i < |s.tasks| {
        assert s'.tasks[i] == s.tasks[i];
      }
    }
  }

  lemma StimulateConsistent(cfg: Config, s: State, page: Page, controller: ControllerRef, identifier: string,
                            ce: ElementKey, target: Option<string>, args: seq<Arg>, url: string, tabId: string,
                            generated: string, open: bool)
    requires cfg.variant != Module && ValidCall(page, ce, args) && Consistent(s)
    ensures var s' := Stimulate(cfg, s, page, controller, identifier, ce, target, args, url, tabId, generated, open).0;
            Consistent(s') && KeepsSettled(s.promises, s'.promises)
  {
    var re := ReflexElementOf(args, ce);
    var d := Outbound(page, ce, identifier, target, args, url, tabId, generated);
    var slot := (ce, d.reflexId);
    if !BadInput(page, re) && !(cfg.variant == Umd && (!open || !s.link.active)) {
      var s1 := s.(reflexController := s.reflexController[slot := Some(controller)],
                   reflexData := s.reflexData[slot := d]);
      var s2 := Dispatch(cfg, s1, "before", Some(re), Some(ce), d.reflexId, None);
      DispatchFrame(cfg, s1, "before", Some(re), Some(ce), d.reflexId, None);
      var send := SendReflex(ce, d.reflexId, re, OptionsOf(ArgsAfterElement(args)), d);
      var s3 := s2.(tasks := s2.tasks + [send]);
      ScheduledSendConsistent(s, s3, send);
      RegisterConsistent(s3, d);
      assert Stimulate(cfg, s, page, controller, identifier, ce, target, args, url, tabId, generated, open).0
             == Register(s3, d).0;
    }
  }

  // ----- the deferred send -----

  /** The deferred send, run on the page as it is when the timer fires, hands the
      transport the record re-read on that page, with the `params` a callback stored for
      the controller element and with the form serialized unless switched off. The
      reflex element's current `data-reflex-serialize-form` attribute, when present,
      decides over the option. The serialized form reads back as the form's entries and
      the pair of the reflex element as the submitter. The memoised fields are those of
      the first record. */
  lemma SendSerializes(cfg: Config, s: State, t: Task, page: Page, form: Option<Form.FormSnapshot>)
    requires t.SendReflex? && Runnable(page, t)
    ensures var d := Outgoing(s, t, page, form);
            var info := page.element(t.element);
            var attr := AttributeNamed(info.attributes, SerializeFormAttribute);
            var off := if attr.Some? then attr.value == "false" else t.options.serializeForm == Some(false);
            var slot := (t.ownerElement, t.reflexId);
            (off ==> d.formData == Some(""))
            && (!off ==> d.formData.Some? && Form.ParseQuery(d.formData.value) == Some(Form.SubmittedPairs(form, info.control)))
            && d.params == (if slot in s.reflexData then s.reflexData[slot].params else None)
            && d.(params := t.data.params, formData := t.data.formData)
               == Reread(t.data, t.options, page, t.element, t.ownerElement)
            && d.attrs == t.data.attrs && d.dataset == t.data.dataset && d.datasetAll == t.data.datasetAll
            && d.selectors == t.data.selectors && d.reflexId == t.data.reflexId
            && RunTask(cfg, s, t, page, form).link == Enqueued(cfg.variant, s.link, d)
            && RunTask(cfg, s, t, page, form).reflexData == s.reflexData[slot := d]
  {
    Form.SerializeFormRoundTrip(form, page.element(t.element).control);
    RereadKeepsMemos(t.data, t.options, page, t.element, t.ownerElement);
  }

  // ----- the root-element path, end to end -----

  /** On `<html><body></body></html>` with the `<html>` element as the controller
      element, the path the source puts in the record (`Dom.PathOf`, as written) finds no
      element. A routed reply naming that path stores no error body, and the stage it
      schedules is dispatched without a controller element. That dispatch changes nothing whatever the state, so no
      callback runs and the element's entries are never deleted. */
  lemma HtmlControllerLosesReply(cfg: Config, s: State, msg: ServerMessage)
    requires msg.stimulusReflex.Some? && EventType(msg.name).Some?
    requires Routed(cfg.variant, EventType(msg.name).value)
    requires msg.stimulusReflex.value.reflexId in s.reflexes
    requires msg.stimulusReflex.value.xpathController == Dom.PathOf(DomProofs.SampleDoc(), Dom.InDocument([]))
    ensures Resolve(DomProofs.SampleDoc(), msg.stimulusReflex.value.xpathController) == None
    ensures var (s', _) := Route(cfg, s, DomProofs.SampleDoc(), msg);
            var t := s'.tasks[|s.tasks| + 1];
            s'.reflexError == s.reflexError
            && t.DispatchStage? && t.controllerElement.None?
            && forall s2 :: Dispatch(cfg, s2, t.stage, t.reflexElement, t.controllerElement, t.reflexId, t.payload) == s2
  {
    DomProofs.HtmlElementPathUnresolved();
    RouteOutcome(cfg, s, DomProofs.SampleDoc(), msg);
    var (s', _) := Route(cfg, s, DomProofs.SampleDoc(), msg);
    var t := s'.tasks[|s.tasks| + 1];
    forall s2 ensures Dispatch(cfg, s2, t.stage, t.reflexElement, t.controllerElement, t.reflexId, t.payload) == s2 {
      DispatchGuard(cfg, s2, t.stage, t.reflexElement, t.controllerElement, t.reflexId, t.payload);
    }
  }
}
