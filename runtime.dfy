/** `StimulusReflex` as the browser runs it: the registry, the promise cells, the per-element
    maps and the timer queue are fields updated in place, and each method performs one step
    of `Engine` on them. */
module Runtime {
  import opened Common
  import opened Naming
  import Dom
  import Form
  import opened Dataset
  import opened Records
  import opened Transport
  import Engine

  class StimulusReflex {
    const cfg: Engine.Config
    const transport: ActionCableTransport
    var reflexes: map<Engine.ReflexId, Engine.Reflex>
    var promises: seq<Engine.Settlement>
    var reflexController: map<Engine.Slot, Option<Engine.ControllerRef>>
    var reflexData: map<Engine.Slot, Data>
    var reflexError: map<Engine.Slot, string>
    var tasks: seq<Engine.Task>
    var performed: seq<seq<Engine.Operation>>
    var events: seq<Engine.Emitted>
    var calls: seq<Engine.Call>

    function Snapshot(): Engine.State
      reads this, transport
    {
      Engine.State(reflexes, promises, reflexController, reflexData, reflexError, tasks, performed,
                   events, calls, transport.Snapshot())
    }

    /** The transport is built for the same build as the engine. */
    predicate Valid()
      reads this
    {
      transport.variant == cfg.variant
    }

    constructor(cfg: Engine.Config, classes: set<string>)
      ensures this.cfg == cfg && Valid() && fresh(transport)
      ensures Snapshot() == Engine.State(map[], [], map[], map[], map[], [], [], [], [],
                                         Link(false, [], [], false, classes, []))
    {
      this.cfg := cfg;
      transport := new ActionCableTransport(cfg.variant, classes);
      reflexes := map[];
      promises := [];
      reflexController := map[];
      reflexData := map[];
      reflexError := map[];
      tasks := [];
      performed := [];
      events := [];
      calls := [];
    }

    method RegisterReflex(d: Data) returns (p: nat)
      modifies this
      ensures (Snapshot(), p) == Engine.Register(old(Snapshot()), d)
    {
      p := |promises|;
      promises := promises + [Engine.Pending];
      reflexes := reflexes[d.reflexId := Engine.Reflex("finalize", p, 0, 0, 0, [])];
    }

    method SettlePromise(p: nat, v: Engine.Settlement)
      modifies this
      ensures Snapshot() == Engine.Settle(old(Snapshot()), p, v)
    {
      if p < |promises| && promises[p].Pending? {
        promises := promises[p := v];
      }
    }

    /** Calls the specific and then the generic callback, then deletes the reflex's entries
        when this is its final stage. */
    method InvokeLifecycleMethod(stage: string, ce: Option<ElementKey>, id: Engine.ReflexId,
                                 payload: Option<Engine.Payload>)
      modifies this
      ensures Snapshot() == Engine.Invoke(cfg, old(Snapshot()), stage, ce, id, payload)
    {
      if ce.None? || (ce.value, id) !in reflexData || (ce.value, id) !in reflexController
         || reflexController[(ce.value, id)].None? {
        return;
      }
      var slot := (ce.value, id);
      var controller := reflexController[slot].value;
      var err := if slot in reflexError then Some(reflexError[slot]) else None;
      var target := reflexData[slot].target;
      var defined := if controller in cfg.methods then cfg.methods[controller] else {};
      var specific := SpecificLifecycleMethodName(stage, target);
      var generic := GenericLifecycleMethodName(stage);
      ghost var before := calls;
      if specific in defined {
        calls := calls + [Engine.Call(controller, specific, id, err, payload)];
      }
      if generic in defined {
        calls := calls + [Engine.Call(controller, generic, id, err, payload)];
      }
      assert calls == before + Engine.CallbacksFor(cfg, controller, stage, target, id, err, payload);
      if id in reflexes && stage == reflexes[id].finalStage {
        reflexController := reflexController - {slot};
        reflexData := reflexData - {slot};
        reflexError := reflexError - {slot};
      }
    }

    /** The stage event, whose document listener runs at once, then the method-specific
        event. */
    method DispatchLifecycleEvent(stage: string, re: Option<ElementKey>, ce: Option<ElementKey>,
                                  id: Engine.ReflexId, payload: Option<Engine.Payload>)
      modifies this
      ensures Snapshot() == Engine.Dispatch(cfg, old(Snapshot()), stage, re, ce, id, payload)
      decreases Engine.Rank(stage), 1
    {
      if ce.None? || (ce.value, id) !in reflexController || reflexController[(ce.value, id)].None?
         || (ce.value, id) !in reflexData {
        return;
      }
      var action := Engine.ActionName(stage, reflexData[(ce.value, id)].target);
      events := events + [Engine.Emitted(ce.value, "stimulus-reflex:" + stage, id, payload)];
      LifecycleListener(stage, re, ce.value, id, payload);
      events := events + [Engine.Emitted(ce.value, action, id, payload)];
    }

    method LifecycleListener(stage: string, re: Option<ElementKey>, ce: ElementKey, id: Engine.ReflexId,
                             payload: Option<Engine.Payload>)
      modifies this
      ensures Snapshot() == Engine.Listener(cfg, old(Snapshot()), stage, re, ce, id, payload)
      decreases Engine.Rank(stage), 0
    {
      if stage == "nothing" {
        DispatchLifecycleEvent("success", re, Some(ce), id, payload);
      } else if stage == "success" || stage == "error" {
        InvokeLifecycleMethod(stage, Some(ce), id, payload);
        DispatchLifecycleEvent("after", re, Some(ce), id, payload);
      } else if stage in {"before", "halted", "after", "finalize"}
                || (stage == "forbidden" && cfg.variant == Primary) {
        InvokeLifecycleMethod(stage, Some(ce), id, payload);
      }
    }

    /** The reverse loop of `received`: each tagged operation is pushed onto the reflex
        operations and spliced out of the batch, which keeps the untagged ones. */
    static method Partition(ops: seq<Engine.Operation>) returns (reflexOps: seq<Engine.Operation>,
                                                                rest: seq<Engine.Operation>)
      ensures reflexOps == Engine.Reverse(Engine.Tagged(ops))
      ensures rest == Engine.Untagged(ops)
    {
      reflexOps := [];
      rest := ops;
      var j := |ops|;
      assert ops[j..] == [];
      while j > 0
        invariant 0 <= j <= |ops|
        invariant reflexOps == Engine.Reverse(Engine.Tagged(ops[j..]))
        invariant rest == ops[..j] + Engine.Untagged(ops[j..])
      {
        j := j - 1;
        assert ops[j..] == [ops[j]] + ops[j + 1..];
        assert rest[..j] == ops[..j] && rest[j] == ops[j];
        if Engine.IsTagged(ops[j]) {
          var later := Engine.Tagged(ops[j + 1..]);
          assert Engine.Tagged(ops[j..]) == [ops[j]] + later;
          assert ([ops[j]] + later)[1..] == later;
          assert Engine.Reverse([ops[j]] + later) == Engine.Reverse(later) + [ops[j]];
          reflexOps := reflexOps + [ops[j]];
          rest := rest[..j] + rest[j + 1..];
        } else {
          assert Engine.Tagged(ops[j..]) == [] + Engine.Tagged(ops[j + 1..]);
          assert [] + Engine.Tagged(ops[j + 1..]) == Engine.Tagged(ops[j + 1..]);
          assert Engine.Untagged(ops[j..]) == [ops[j]] + Engine.Untagged(ops[j + 1..]);
          assert ops[..j + 1] == ops[..j] + [ops[j]];
        }
      }
      assert ops[0..] == ops;
    }

    /** `received`. */
    method Received(doc: Dom.Document, location: string, batch: Engine.Batch) returns (receipt: Engine.Receipt)
      requires cfg.variant != Module
      modifies this
      ensures (Snapshot(), receipt) == Engine.Received(cfg, old(Snapshot()), doc, location, batch)
    {
      if !batch.cableReady {
        return Engine.NotCableReady;
      }
      if Engine.NormalisedVersion(batch.version) != cfg.cableReadyVersion {
        return Engine.VersionMismatch;
      }
      var reflexOps, rest := Partition(batch.operations);
      if Engine.UrlMismatch(reflexOps, location) {
        return Engine.WrongPage;
      }
      if reflexOps == [] {
        if rest != [] && rest[0].reflexId.Some? && rest[0].reflexId.value in reflexes {
          performed := performed + [rest];
          return Engine.PiggybackPerformed;
        }
        return Engine.NothingPerformed;
      }
      Engine.ReverseTagged(batch.operations);
      var data := reflexOps[0].stimulusReflex.value.(payload := reflexOps[0].payload);
      var id := data.reflexId;
      if id !in reflexes && !cfg.isolate {
        var ce := Engine.Resolve(doc, data.xpathController);
        if ce.None? {
          return Engine.ControllerMissing;
        }
        var slot := (ce.value, id);
        reflexController := reflexController[slot := Engine.ControllerNamed(cfg, ce.value, data.reflexController)];
        reflexData := reflexData[slot := data];
        DispatchLifecycleEvent("before", Engine.Resolve(doc, data.xpathElement), Some(ce.value), id, data.payload);
        var _ := RegisterReflex(data);
      } else if id !in reflexes {
        return Engine.Unregistered;
      }
      reflexes := reflexes[id := reflexes[id].(totalOperations := |reflexOps|,
                                               pendingOperations := |reflexOps|,
                                               completedOperations := 0,
                                               piggybackOperations := rest)];
      performed := performed + [reflexOps];
      receipt := Engine.Performed;
    }

    /** The `cable-ready:before-*` handler. */
    method BeforeDOMUpdate(doc: Dom.Document, ev: Engine.OperationEvent) returns (threw: bool)
      modifies this
      ensures (Snapshot(), threw) == Engine.BeforeDOMUpdate(old(Snapshot()), doc, ev)
    {
      if ev.stimulusReflex.None? {
        return false;
      }
      var sr := ev.stimulusReflex.value;
      var id := sr.reflexId;
      if id !in reflexes {
        return true;
      }
      reflexes := reflexes[id := reflexes[id].(pendingOperations := reflexes[id].pendingOperations - 1)];
      threw := false;
      if reflexes[id].pendingOperations > 0 {
        return;
      }
      ghost var before := tasks;
      if !sr.resolveLate {
        tasks := tasks + [Engine.SettleResolve(reflexes[id].promise, ev.payload)];
      }
      tasks := tasks + [Engine.DispatchStage("success", Engine.Resolve(doc, sr.xpathElement),
                                             Engine.Resolve(doc, sr.xpathController), id, ev.payload)];
      assert sr.resolveLate ==> before + [] == before;
    }

    /** The `cable-ready:after-*` handler. */
    method AfterDOMUpdate(doc: Dom.Document, ev: Engine.OperationEvent) returns (threw: bool)
      modifies this
      ensures (Snapshot(), threw) == Engine.AfterDOMUpdate(old(Snapshot()), doc, ev)
    {
      if ev.stimulusReflex.None? {
        return false;
      }
      var sr := ev.stimulusReflex.value;
      var id := sr.reflexId;
      if id !in reflexes {
        return true;
      }
      reflexes := reflexes[id := reflexes[id].(completedOperations := reflexes[id].completedOperations + 1)];
      threw := false;
      var r := reflexes[id];
      if r.completedOperations < r.totalOperations {
        return;
      }
      ghost var before := tasks;
      if sr.resolveLate {
        tasks := tasks + [Engine.SettleResolve(r.promise, ev.payload)];
      }
      tasks := tasks + [Engine.DispatchStage("finalize", Engine.Resolve(doc, sr.xpathElement),
                                             Engine.Resolve(doc, sr.xpathController), id, ev.payload)];
      assert !sr.resolveLate ==> before + [] == before;
      if |r.piggybackOperations| > 0 {
        performed := performed + [r.piggybackOperations];
      } else {
        assert performed + [] == performed;
      }
    }

    /** `routeReflexEvent`. */
    method RouteReflexEvent(doc: Dom.Document, msg: Engine.ServerMessage) returns (threw: bool)
      modifies this
      ensures (Snapshot(), threw) == Engine.Route(cfg, old(Snapshot()), doc, msg)
    {
      var t := Engine.EventType(msg.name);
      if msg.stimulusReflex.None? || t.None? || !Engine.Routed(cfg.variant, t.value) {
        return false;
      }
      var sr := msg.stimulusReflex.value;
      var id := sr.reflexId;
      if id !in reflexes {
        return true;
      }
      var re := Engine.Resolve(doc, sr.xpathElement);
      var ce := Engine.Resolve(doc, sr.xpathController);
      if ce.Some? && t.value == "error" {
        reflexError := reflexError[(ce.value, id) := msg.body];
      }
      reflexes := reflexes[id := reflexes[id].(finalStage := Engine.FinalStageOf(t.value))];
      var r := reflexes[id];
      var settle := if t.value == "error" then Engine.SettleReject(r.promise, msg.body)
                    else Engine.SettleResolve(r.promise, msg.payload);
      tasks := tasks + [settle, Engine.DispatchStage(t.value, re, ce, id, msg.payload)];
      if |r.piggybackOperations| > 0 {
        performed := performed + [r.piggybackOperations];
      } else {
        assert performed + [] == performed;
      }
      threw := false;
    }

    /** The timer fires: the first deferred action is taken off the list and run, on the
        page as it is then. */
    method RunNextTask(page: Page, form: Option<Form.FormSnapshot>)
      requires tasks != [] && Valid() && Engine.Runnable(page, tasks[0])
      modifies this, transport
      ensures Snapshot() == Engine.RunNext(cfg, old(Snapshot()), page, form)
    {
      var t := tasks[0];
      tasks := tasks[1..];
      match t
      case SettleResolve(p, v) => SettlePromise(p, Engine.Resolved(v));
      case SettleReject(p, e) => SettlePromise(p, Engine.Rejected(e));
      case DispatchStage(stage, re, ce, id, payload) => DispatchLifecycleEvent(stage, re, ce, id, payload);
      case SendReflex(_, _, _, _, _) => SendDeferred(t, page, form);
    }

    /** The deferred half of `stimulate`: the `params` a callback stored, the serialise
        switch and the form read now, the record's second `valueOf()` on the page as it is
        now, stored for the controller element and handed to the transport. */
    method SendDeferred(t: Engine.Task, page: Page, form: Option<Form.FormSnapshot>)
      requires t.SendReflex? && Valid() && Engine.Runnable(page, t)
      modifies this, transport
      ensures Snapshot() == Engine.RunTask(cfg, old(Snapshot()), t, page, form)
    {
      var ce, id, re, opts, first := t.ownerElement, t.reflexId, t.element, t.options, t.data;
      var params := if (ce, id) in reflexData then reflexData[(ce, id)].params else None;
      var check := AttributeNamed(page.element(re).attributes, SerializeFormAttribute);
      var serialize := if check.Some? then Some(check.value != "false") else opts.serializeForm;
      var formData := if serialize == Some(false) then "" else Form.SerializeForm(form, page.element(re).control);
      var d := Reread(first, opts, page, re, ce).(params := params, formData := Some(formData));
      assert d == Engine.Outgoing(Snapshot(), t, page, form);
      reflexData := reflexData[(ce, id) := d];
      transport.Enqueue(d);
    }

    /** `stimulate`: build the record, store the controller and the record for the
        controller element, dispatch `before`, schedule the send, and register the reflex. */
    method Stimulate(page: Page, controller: Engine.ControllerRef, identifier: string, ce: ElementKey,
                     target: Option<string>, args: seq<Arg>, url: string, tabId: string,
                     generated: string, connectionOpen: bool) returns (outcome: Engine.Stimulated)
      requires cfg.variant != Module && Engine.ValidCall(page, ce, args)
      modifies this
      ensures (Snapshot(), outcome) == Engine.Stimulate(cfg, old(Snapshot()), page, controller, identifier, ce,
                                                         target, args, url, tabId, generated, connectionOpen)
    {
      var re := Engine.ReflexElementOf(args, ce);
      var rest := Engine.ArgsAfterElement(args);
      if Engine.BadInput(page, re) {
        return Engine.Aborted;
      }
      var opts := Engine.OptionsOf(rest);
      var id, d := BuildReflexData(opts, page, re, ce, identifier, Engine.TargetOf(target),
                                   Engine.ArgsAfterOptions(rest), url, tabId, generated);
      if cfg.variant == Umd && !connectionOpen {
        return Engine.Threw(Engine.NotOpen);
      }
      if cfg.variant == Umd && !transport.active {
        return Engine.Threw(Engine.SubscriptionRejected);
      }
      var slot := (ce, id);
      reflexController := reflexController[slot := Some(controller)];
      reflexData := reflexData[slot := d];
      DispatchLifecycleEvent("before", Some(re), Some(ce), id, None);
      tasks := tasks + [Engine.SendReflex(ce, id, re, opts, d)];
      var p := RegisterReflex(d);
      outcome := Engine.Started(id, p);
    }
  }
}
