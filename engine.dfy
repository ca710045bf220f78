/** The reflex engine as a state machine over values: the `reflexes` registry, the promise
    cells, the per-controller-element bookkeeping maps, the deferred-action list, and the
    reply router that drives them. `Runtime.StimulusReflex` performs these steps in place. */
module Engine {
  import opened Common
  import opened Naming
  import Dom
  import Form
  import opened Dataset
  import opened Records
  import opened Transport

  type ReflexId = string
  type Payload = string
  /** A Stimulus controller instance. */
  type ControllerRef = nat
  /** One entry of the per-element maps `reflexController`, `reflexData` and `reflexError`:
      the controller element and the reflex id. */
  type Slot = (ElementKey, ReflexId)

  const DefaultTarget := "StimulusReflex::Reflex#default_reflex"

  /** A promise cell: settled at most once. */
  datatype Settlement = Pending | Resolved(payload: Option<Payload>) | Rejected(error: string)

  /** A CableReady operation as the router sees it: `stimulusReflex` is the reflex metadata
      that tags it, and `reflexId` the plain attribute untagged operations may carry. */
  datatype Operation = Operation(name: string, stimulusReflex: Option<Data>, payload: Option<Payload>,
                                 reflexId: Option<ReflexId>)

  /** An entry of `reflexes`. `promise` is the index of its cell in `promises`. */
  datatype Reflex = Reflex(finalStage: string, promise: nat, totalOperations: int,
                           pendingOperations: int, completedOperations: int,
                           piggybackOperations: seq<Operation>)

  /** An inbound message of the channel. */
  datatype Batch = Batch(cableReady: bool, version: string, operations: seq<Operation>)

  /** The `detail` of a `cable-ready:before-*` / `after-*` event. */
  datatype OperationEvent = OperationEvent(stimulusReflex: Option<Data>, payload: Option<Payload>)

  /** The `detail` of a server message routed by `routeReflexEvent`. */
  datatype ServerMessage = ServerMessage(stimulusReflex: Option<Data>, payload: Option<Payload>,
                                         name: string, body: string)

  /** A `setTimeout` callback, in the order it was scheduled. `SendReflex` is the deferred
      half of `stimulate`: it carries what its closure captured, which is the controller
      element (`ownerElement`), the reflex element (`element`), the options and the first record the `ReflexData` object produced. */
  datatype Task =
    | SettleResolve(promise: nat, value: Option<Payload>)
    | SettleReject(promise: nat, error: string)
    | DispatchStage(stage: string, reflexElement: Option<ElementKey>,
                    controllerElement: Option<ElementKey>, reflexId: ReflexId, payload: Option<Payload>)
    | SendReflex(ownerElement: ElementKey, reflexId: ReflexId, element: ElementKey,
                 options: Options, data: Data)

  /** A `CustomEvent` dispatched on a controller element. */
  datatype Emitted = Emitted(element: ElementKey, name: string, reflexId: ReflexId, payload: Option<Payload>)

  /** A lifecycle callback invoked on a controller, with the error it was handed. */
  datatype Call = Call(controller: ControllerRef, callback: string, reflexId: ReflexId,
                       error: Option<string>, payload: Option<Payload>)

  /** What does not change while the engine runs: the build, the isolation option, the
      executor's version, the controller `getControllerForElementAndIdentifier` finds on an
      element for an identifier, and the callback methods each controller defines. */
  datatype Config = Config(variant: Variant, isolate: bool, cableReadyVersion: string,
                           app: map<(ElementKey, string), ControllerRef>,
                           methods: map<ControllerRef, set<string>>)

  /** Everything the engine changes. A `reflexController` entry holding `None` is the
      `null` stored when no controller was found. `performed` lists the batches handed to
      `CableReady.perform`. */
  datatype State = State(
    reflexes: map<ReflexId, Reflex>,
    promises: seq<Settlement>,
    reflexController: map<Slot, Option<ControllerRef>>,
    reflexData: map<Slot, Data>,
    reflexError: map<Slot, string>,
    tasks: seq<Task>,
    performed: seq<seq<Operation>>,
    events: seq<Emitted>,
    calls: seq<Call>,
    link: Link)

  /** `XPathToElement` followed by the element's identity. */
  function Resolve(doc: Dom.Document, x: Option<Dom.XPath>): Option<ElementKey> {
    match x
    case None => None
    case Some(path) =>
      match Dom.XPathToElement(doc, path)
      case None => None
      case Some(p) => Some(Dom.At(doc.root, p).key)
  }

  // ----- registry -----

  /** `registerReflex`: a fresh record whose final stage is `finalize`, with a new pending
      promise. The counters start at zero. */
  function Register(s: State, d: Data): (State, nat) {
    var p := |s.promises|;
    (s.(reflexes := s.reflexes[d.reflexId := Reflex("finalize", p, 0, 0, 0, [])],
        promises := s.promises + [Pending]), p)
  }

  /** Calling `resolve` or `reject`: only a pending promise changes. */
  function Settle(s: State, p: nat, v: Settlement): State {
    if p < |s.promises| && s.promises[p].Pending? then s.(promises := s.promises[p := v]) else s
  }

  // ----- lifecycle -----

  predicate HasController(s: State, ce: ElementKey, id: ReflexId) {
    (ce, id) in s.reflexController && s.reflexController[(ce, id)].Some?
  }

  predicate IsStage(stage: string) {
    stage in {"before", "success", "nothing", "error", "halted", "forbidden", "after", "finalize"}
  }

  /** How many stages a stage's listener can still chain. */
  function Rank(stage: string): nat {
    if stage == "nothing" then 2 else if stage == "success" || stage == "error" then 1 else 0
  }

  /** The per-element entries of one reflex removed. */
  function Cleared(s: State, slot: Slot): State {
    s.(reflexController := s.reflexController - {slot}, reflexData := s.reflexData - {slot},
       reflexError := s.reflexError - {slot})
  }

  /** The callbacks `invokeLifecycleMethod` calls, specific before generic, each only when
      the controller defines it. */
  function CallbacksFor(cfg: Config, c: ControllerRef, stage: string, target: string, id: ReflexId,
                        err: Option<string>, payload: Option<Payload>): seq<Call> {
    var defined := if c in cfg.methods then cfg.methods[c] else {};
    var specific := SpecificLifecycleMethodName(stage, target);
    var generic := GenericLifecycleMethodName(stage);
    (if specific in defined then [Call(c, specific, id, err, payload)] else [])
    + (if generic in defined then [Call(c, generic, id, err, payload)] else [])
  }

  /** `invokeLifecycleMethod`: nothing without a controller element or without `reflexData`
      for the id (nor when the controller entry is missing, where the source throws before
      calling anything); otherwise the callbacks, then the id's entries are removed when
      the stage is the record's final stage. */
  function Invoke(cfg: Config, s: State, stage: string, ce: Option<ElementKey>, id: ReflexId,
                  payload: Option<Payload>): State {
    if ce.None? || (ce.value, id) !in s.reflexData || !HasController(s, ce.value, id) then s
    else
      var slot := (ce.value, id);
      var err := if slot in s.reflexError then Some(s.reflexError[slot]) else None;
      var s1 := s.(calls := s.calls + CallbacksFor(cfg, s.reflexController[slot].value, stage,
                                                  s.reflexData[slot].target, id, err, payload));
      if id in s.reflexes && stage == s.reflexes[id].finalStage then Cleared(s1, slot) else s1
  }

  /** The name of the second event: the stage event suffixed with the reflex's method. */
  function ActionName(stage: string, target: string): string {
    var m := MethodPart(target);
    "stimulus-reflex:" + stage + ":" + (if m.Some? then m.value else "undefined")
  }

  /** `dispatchLifecycleEvent`: silent without a controller element or a registered
      controller; otherwise the stage event (whose document listener runs at once), then
      the method-specific event. */
  function Dispatch(cfg: Config, s: State, stage: string, re: Option<ElementKey>,
                    ce: Option<ElementKey>, id: ReflexId, payload: Option<Payload>): State
    decreases Rank(stage), 1
  {
    if ce.None? || !HasController(s, ce.value, id) || (ce.value, id) !in s.reflexData then s
    else
      var action := ActionName(stage, s.reflexData[(ce.value, id)].target);
      var s1 := s.(events := s.events + [Emitted(ce.value, "stimulus-reflex:" + stage, id, payload)]);
      var s2 := Listener(cfg, s1, stage, re, ce.value, id, payload);
      s2.(events := s2.events + [Emitted(ce.value, action, id, payload)])
  }

  /** The document listeners: `nothing` dispatches `success`; `success` and `error` invoke
      their callbacks and dispatch `after`; `before`, `halted`, `after`, `finalize` (and
      `forbidden` in the primary build) only invoke. */
  function Listener(cfg: Config, s: State, stage: string, re: Option<ElementKey>, ce: ElementKey,
                    id: ReflexId, payload: Option<Payload>): State
    decreases Rank(stage), 0
  {
    if stage == "nothing" then Dispatch(cfg, s, "success", re, Some(ce), id, payload)
    else if stage == "success" || stage == "error" then
      Dispatch(cfg, Invoke(cfg, s, stage, Some(ce), id, payload), "after", re, Some(ce), id, payload)
    else if stage in {"before", "halted", "after", "finalize"}
            || (stage == "forbidden" && cfg.variant == Primary) then
      Invoke(cfg, s, stage, Some(ce), id, payload)
    else s
  }

  // ----- received -----

  predicate IsTagged(o: Operation) {
    o.stimulusReflex.Some?
  }

  /** The tagged operations, in batch order. */
  function Tagged(ops: seq<Operation>): (r: seq<Operation>)
    ensures forall i :: 0 <= i < |r| ==> IsTagged(r[i])
    ensures |r| <= |ops|
  {
    if ops == [] then [] else (if IsTagged(ops[0]) then [ops[0]] else []) + Tagged(ops[1..])
  }

  /** The untagged operations, in batch order. */
  function Untagged(ops: seq<Operation>): (r: seq<Operation>)
    ensures forall i :: 0 <= i < |r| ==> !IsTagged(r[i])
    ensures |r| <= |ops|
  {
    if ops == [] then [] else (if IsTagged(ops[0]) then [] else [ops[0]]) + Untagged(ops[1..])
  }

  function Reverse<T>(xs: seq<T>): (r: seq<T>)
    ensures |r| == |xs|
  {
    if xs == [] then [] else Reverse(xs[1..]) + [xs[0]]
  }

  /** Some tagged operation was rendered for another page. */
  predicate UrlMismatch(ops: seq<Operation>, location: string) {
    ops != [] && ((IsTagged(ops[0]) && ops[0].stimulusReflex.value.url != location)
                  || UrlMismatch(ops[1..], location))
  }

  /** `data.version.replace(".pre", "-pre")`. */
  function NormalisedVersion(v: string): string {
    ReplaceFirst(v, ".pre", "-pre")
  }

  datatype Receipt =
    | NotCableReady
    | VersionMismatch
    | WrongPage
    | ControllerMissing    // the clone path's `XPathToElement` found nothing: a TypeError
    | Unregistered
    | Performed
    | PiggybackPerformed
    | NothingPerformed

  /** The counters `received` sets for a reply: as many pending operations as tagged ones,
      none completed, and the untagged remainder kept for afterwards. */
  function Counted(s: State, id: ReflexId, reflexOps: seq<Operation>, rest: seq<Operation>): State
    requires id in s.reflexes
  {
    s.(reflexes := s.reflexes[id := s.reflexes[id].(totalOperations := |reflexOps|,
                                                    pendingOperations := |reflexOps|,
                                                    completedOperations := 0,
                                                    piggybackOperations := rest)],
       performed := s.performed + [reflexOps])
  }

  function ControllerNamed(cfg: Config, ce: ElementKey, identifier: string): Option<ControllerRef> {
    if (ce, identifier) in cfg.app then Some(cfg.app[(ce, identifier)]) else None
  }

  /** The clone path: bookkeeping for a reflex another tab started, the `before` stage,
      and a record. The module build has no transport, so no `received` and no `stimulate`. */
  function Cloned(cfg: Config, s: State, doc: Dom.Document, data: Data, ce: ElementKey): State {
    var slot := (ce, data.reflexId);
    var s1 := s.(reflexController := s.reflexController[slot := ControllerNamed(cfg, ce, data.reflexController)],
                 reflexData := s.reflexData[slot := data]);
    var s2 := Dispatch(cfg, s1, "before", Resolve(doc, data.xpathElement), Some(ce), data.reflexId, data.payload);
    Register(s2, data).0
  }

  /** `received`: drop foreign or mismatched batches, split the tagged operations off
      (last to first), check their page, then set up the record of the first one's reflex
      and perform them; a batch without tagged operations is performed when its first
      operation names a known reflex. */
  function Received(cfg: Config, s: State, doc: Dom.Document, location: string, batch: Batch): (State, Receipt)
    requires cfg.variant != Module
  {
    if !batch.cableReady then (s, NotCableReady)
    else if NormalisedVersion(batch.version) != cfg.cableReadyVersion then (s, VersionMismatch)
    else
      var reflexOps := Reverse(Tagged(batch.operations));
      var rest := Untagged(batch.operations);
      if UrlMismatch(reflexOps, location) then (s, WrongPage)
      else if reflexOps == [] then
        if rest != [] && rest[0].reflexId.Some? && rest[0].reflexId.value in s.reflexes
        then (s.(performed := s.performed + [rest]), PiggybackPerformed)
        else (s, NothingPerformed)
      else
        assert IsTagged(reflexOps[0]) by { ReverseTagged(batch.operations); }
        var data := reflexOps[0].stimulusReflex.value.(payload := reflexOps[0].payload);
        var id := data.reflexId;
        if id !in s.reflexes && !cfg.isolate then
          var ce := Resolve(doc, data.xpathController);
          if ce.None? then (s, ControllerMissing)
          else
            var s1 := Cloned(cfg, s, doc, data, ce.value);
            (Counted(s1, id, reflexOps, rest), Performed)
        else if id in s.reflexes then (Counted(s, id, reflexOps, rest), Performed)
        else (s, Unregistered)
  }

  lemma {:induction false} ReverseTagged(ops: seq<Operation>)
    ensures forall i :: 0 <= i < |Reverse(Tagged(ops))| ==> IsTagged(Reverse(Tagged(ops))[i])
  {
    ReverseAll(Tagged(ops));
  }

  lemma {:induction false} ReverseAll(xs: seq<Operation>)
    requires forall i :: 0 <= i < |xs| ==> IsTagged(xs[i])
    ensures forall i :: 0 <= i < |Reverse(xs)| ==> IsTagged(Reverse(xs)[i])
    decreases |xs|
  {
    if xs != [] {
      ReverseAll(xs[1..]);
    }
  }

  // ----- CableReady operation hooks -----

  /** `beforeDOMUpdate`: one fewer operation pending; once none is, schedule the early
      resolve (unless the reflex resolves late) and the `success` stage. `true` is the
      TypeError of an id without a record, which changes nothing. */
  function BeforeDOMUpdate(s: State, doc: Dom.Document, ev: OperationEvent): (State, bool) {
    if ev.stimulusReflex.None? then (s, false)
    else
      var sr := ev.stimulusReflex.value;
      var id := sr.reflexId;
      if id !in s.reflexes then (s, true)
      else
        var r := s.reflexes[id].(pendingOperations := s.reflexes[id].pendingOperations - 1);
        var s1 := s.(reflexes := s.reflexes[id := r]);
        if r.pendingOperations > 0 then (s1, false)
        else
          var resolve := if sr.resolveLate then [] else [SettleResolve(r.promise, ev.payload)];
          var success := DispatchStage("success", Resolve(doc, sr.xpathElement),
                                       Resolve(doc, sr.xpathController), id, ev.payload);
          (s1.(tasks := s1.tasks + resolve + [success]), false)
  }

  /** `afterDOMUpdate`: one more operation completed; once all are, schedule the late
      resolve (when the reflex resolves late) and the `finalize` stage, and perform the
      piggyback operations. */
  function AfterDOMUpdate(s: State, doc: Dom.Document, ev: OperationEvent): (State, bool) {
    if ev.stimulusReflex.None? then (s, false)
    else
      var sr := ev.stimulusReflex.value;
      var id := sr.reflexId;
      if id !in s.reflexes then (s, true)
      else
        var r := s.reflexes[id].(completedOperations := s.reflexes[id].completedOperations + 1);
        var s1 := s.(reflexes := s.reflexes[id := r]);
        if r.completedOperations < r.totalOperations then (s1, false)
        else
          var resolve := if sr.resolveLate then [SettleResolve(r.promise, ev.payload)] else [];
          var finalize := DispatchStage("finalize", Resolve(doc, sr.xpathElement),
                                        Resolve(doc, sr.xpathController), id, ev.payload);
          var piggyback := if |r.piggybackOperations| > 0 then [r.piggybackOperations] else [];
          (s1.(tasks := s1.tasks + resolve + [finalize], performed := s1.performed + piggyback), false)
  }

  // ----- routeReflexEvent -----

  /** `name.split("-")[2]`. */
  function EventType(name: string): Option<string> {
    var parts := Split(name, '-');
    if |parts| > 2 then Some(parts[2]) else None
  }

  /** The outcomes a build routes: the UMD and module builds have no `forbidden`. */
  predicate Routed(variant: Variant, t: string) {
    t == "nothing" || t == "halted" || t == "error" || (variant == Primary && t == "forbidden")
  }

  /** The final stage an outcome sets. */
  function FinalStageOf(t: string): string {
    if t == "nothing" || t == "error" then "after" else t
  }

  /** `routeReflexEvent`: for a routed outcome, store the error body, set the final stage,
      schedule the settlement (reject only for `error`) and the outcome's stage, and
      perform the piggyback operations. */
  function Route(cfg: Config, s: State, doc: Dom.Document, msg: ServerMessage): (State, bool) {
    var t := EventType(msg.name);
    if msg.stimulusReflex.None? || t.None? || !Routed(cfg.variant, t.value) then (s, false)
    else
      var sr := msg.stimulusReflex.value;
      var id := sr.reflexId;
      if id !in s.reflexes then (s, true)
      else
        var re := Resolve(doc, sr.xpathElement);
        var ce := Resolve(doc, sr.xpathController);
        var errors := if ce.Some? && t.value == "error" then s.reflexError[(ce.value, id) := msg.body]
                      else s.reflexError;
        var r := s.reflexes[id].(finalStage := FinalStageOf(t.value));
        var settle := if t.value == "error" then SettleReject(r.promise, msg.body)
                      else SettleResolve(r.promise, msg.payload);
        var piggyback := if |r.piggybackOperations| > 0 then [r.piggybackOperations] else [];
        (s.(reflexError := errors, reflexes := s.reflexes[id := r],
            tasks := s.tasks + [settle, DispatchStage(t.value, re, ce, id, msg.payload)],
            performed := s.performed + piggyback), false)
  }

  // ----- deferred actions -----

  /** The page the deferred send reads holds both of its elements. */
  predicate Runnable(page: Page, t: Task) {
    t.SendReflex? ==> ValidElement(page, t.element) && ValidElement(page, t.ownerElement)
  }

  /** Whether the deferred send serialises the form: the reflex element's
      `data-reflex-serialize-form` attribute as it is when the timer fires overrides the
      option, and only an explicit `false` switches serialisation off. */
  function SerializeSwitch(page: Page, t: Task): Option<bool>
    requires t.SendReflex?
  {
    var attr := AttributeNamed(page.element(t.element).attributes, SerializeFormAttribute);
    if attr.Some? then Some(attr.value != "false") else t.options.serializeForm
  }

  /** The record the deferred half of `stimulate` sends, read on `page`, the page as it is
      when the timer fires: the second `valueOf()` of the record, the `params` a callback
      stored, and the form data (with the reflex element as the submitter) unless
      serialisation is switched off. */
  function Outgoing(s: State, t: Task, page: Page, form: Option<Form.FormSnapshot>): Data
    requires t.SendReflex? && Runnable(page, t)
  {
    var slot := (t.ownerElement, t.reflexId);
    var params := if slot in s.reflexData then s.reflexData[slot].params else None;
    var formData := if SerializeSwitch(page, t) == Some(false) then ""
                    else Form.SerializeForm(form, page.element(t.element).control);
    Reread(t.data, t.options, page, t.element, t.ownerElement).(params := params, formData := Some(formData))
  }

  /** Running one deferred action on `page`; `form` is the form the reflex element
      resolves to when the action runs. */
  function RunTask(cfg: Config, s: State, t: Task, page: Page, form: Option<Form.FormSnapshot>): State
    requires Runnable(page, t)
  {
    match t
    case SettleResolve(p, v) => Settle(s, p, Resolved(v))
    case SettleReject(p, e) => Settle(s, p, Rejected(e))
    case DispatchStage(stage, re, ce, id, payload) => Dispatch(cfg, s, stage, re, ce, id, payload)
    case SendReflex(ce, id, _, _, _) =>
      var d := Outgoing(s, t, page, form);
      s.(reflexData := s.reflexData[(ce, id) := d], link := Enqueued(cfg.variant, s.link, d))
  }

  /** The timer fires: the first deferred action is taken off the list and run. */
  function RunNext(cfg: Config, s: State, page: Page, form: Option<Form.FormSnapshot>): State
    requires s.tasks != [] && Runnable(page, s.tasks[0])
  {
    RunTask(cfg, s.(tasks := s.tasks[1..]), s.tasks[0], page, form)
  }

  // ----- stimulate -----

  datatype Stimulated = Aborted | Threw(reason: string) | Started(reflexId: ReflexId, promise: nat)

  const NotOpen := "The ActionCable connection is not open! `this.isActionCableConnectionOpen()` must return true before calling `this.stimulate()`"
  const SubscriptionRejected := "The ActionCable channel subscription for StimulusReflex was rejected."

  /** The reflex element: a leading element argument, else the controller element. */
  function ReflexElementOf(args: seq<Arg>, controllerElement: ElementKey): ElementKey {
    if args != [] && args[0].ElementArg? then args[0].key else controllerElement
  }

  function ArgsAfterElement(args: seq<Arg>): seq<Arg> {
    if args != [] && args[0].ElementArg? then args[1..] else args
  }

  /** The options: a leading object argument with a recognised key, else none. */
  function OptionsOf(args: seq<Arg>): Options {
    if args != [] && args[0].ObjectArg? && Recognised(args[0].options) then args[0].options else NoOptions
  }

  function ArgsAfterOptions(args: seq<Arg>): seq<Arg> {
    if args != [] && args[0].ObjectArg? && Recognised(args[0].options) then args[1..] else args
  }

  predicate ValidCall(page: Page, controllerElement: ElementKey, args: seq<Arg>) {
    ValidElement(page, controllerElement) && ValidElement(page, ReflexElementOf(args, controllerElement))
  }

  /** The reflex element holds a number input whose text is not a number. */
  predicate BadInput(page: Page, re: ElementKey) {
    page.element(re).inputType == "number" && page.element(re).badInput
  }

  function TargetOf(target: Option<string>): string {
    if NonEmpty(target) then target.value else DefaultTarget
  }

  /** The record `stimulate` builds: the element and option arguments taken off the front,
      the rest passed on as the reflex's arguments. */
  function Outbound(page: Page, controllerElement: ElementKey, identifier: string, target: Option<string>,
                    args: seq<Arg>, url: string, tabId: string, generated: string): Data
    requires ValidCall(page, controllerElement, args)
  {
    var rest := ArgsAfterElement(args);
    InitialData(OptionsOf(rest), page, ReflexElementOf(args, controllerElement), controllerElement,
                identifier, TargetOf(target), ArgsAfterOptions(rest), url, tabId, generated)
  }

  /** `stimulate` on `controller` (identifier `identifier`, element `controllerElement`).
      `generated` is the id `uuidv4` would produce and `connectionOpen` what
      `isActionCableConnectionOpen()` answers. */
  function Stimulate(cfg: Config, s: State, page: Page, controller: ControllerRef, identifier: string,
                     controllerElement: ElementKey, target: Option<string>, args: seq<Arg>,
                     url: string, tabId: string, generated: string, connectionOpen: bool): (State, Stimulated)
    requires cfg.variant != Module
    requires ValidCall(page, controllerElement, args)
  {
    var re := ReflexElementOf(args, controllerElement);
    var opts := OptionsOf(ArgsAfterElement(args));
    if BadInput(page, re) then (s, Aborted)
    else
      var d := Outbound(page, controllerElement, identifier, target, args, url, tabId, generated);
      var id := d.reflexId;
      if cfg.variant == Umd && !connectionOpen then (s, Threw(NotOpen))
      else if cfg.variant == Umd && !s.link.active then (s, Threw(SubscriptionRejected))
      else
        var slot := (controllerElement, id);
        var s1 := s.(reflexController := s.reflexController[slot := Some(controller)],
                     reflexData := s.reflexData[slot := d]);
        var s2 := Dispatch(cfg, s1, "before", Some(re), Some(controllerElement), id, None);
        var send := SendReflex(controllerElement, id, re, opts, d);
        var (s3, p) := Register(s2.(tasks := s2.tasks + [send]), d);
        (s3, Started(id, p))
  }
}
