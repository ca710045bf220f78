# StimulusReflex client engine, modelled in Dafny

StimulusReflex lets a Stimulus controller call server-side Ruby "reflexes" over an
ActionCable channel. This project models the browser half of the engine. That is the
code that builds the reflex record, queues it on the transport, and routes the server's
CableReady reply back into the per-reflex bookkeeping and the lifecycle callbacks. It then
proves properties of the model.

The engine ships as three builds. The primary build, `dist/stimulus_reflex.js`, is the one
modelled. The UMD build, `dist/stimulus_reflex.umd.js`, and the trimmed module build,
`dist/stimulus_reflex.module.js`, appear only where they differ: the parameter
`variant: Variant` (`Primary`, `Umd`, `Module`) switches between them.

Modules, in dependency order:

- `Common` (`common.dfy`): string helpers the source uses (`split`, `join`, `trim`, the
  `Set` deduplication), with their round trips.
- `Naming` (`naming.dfy`): `camelize`, the specific and generic lifecycle method names,
  and `extractReflexName`. The regular expression is written out as a function.
- `Dom` and `DomProofs` (`dom.dfy`): an explicit element tree.
  - `elementToXPath` is a structured path rendered to the string the source builds.
  - `XPathToElement` is a partial lookup that can answer "no element".
- `Form` (`form.dfy`): `encodeURIComponent`, its inverse, and `serializeForm` over an
  abstract list of form entries plus the submit controls.
- `Attributes` (`attributes.dfy`): `attributeValue`, `attributeValues`, and the
  declarative-reflex setup of one element. The setup is a class whose attributes the method
  rewrites.
- `Dataset` (`dataset.dfy`): `extractDataAttributes`, `getElementsFromTokens` and the
  `extractElementDataset` merge rules.
- `Records` (`reflexdata.dfy`): the outbound reflex record. `ReflexData` is a class with
  memoised getters and `valueOf`.
- `Transport` (`transport.dfy`): `ActionCableTransport`. It holds the `active` flag, the
  FIFO queue flushed on connect, and the two connection-status classes on `document.body`.
- `Engine` (`engine.dfy`): the engine as functions over a `State` value. The state holds:
  - `reflexes`, the promise cells, and the per-controller-element maps `reflexController`,
    `reflexData` and `reflexError`;
  - the list of `setTimeout` callbacks in the order they were scheduled;
  - the batches handed to CableReady, the events dispatched and the callbacks called.
- `EngineProofs` (`engine_proofs.dfy`): the properties of `Engine`.
- `Runtime` (`runtime.dfy`): the class `StimulusReflex`. Its methods perform the same
  steps in place, and each one is proved to leave its fields exactly as the `Engine`
  function describes.

Inputs the engine cannot see become parameters:

- the document tree and the current URL;
- the id `uuidv4` would produce;
- the answer of `isActionCableConnectionOpen()`;
- the controllers Stimulus finds on an element, and the callback methods each defines;
- the page as it is when the deferred send runs (the second `valueOf()` reads it again),
  and the form the reflex element resolves to then;
- the per-operation before/after event trace of CableReady.

Each `setTimeout(...)` appends a `Task`. `RunNext` takes the first task and runs it. A
JavaScript promise is a `Settlement` cell that changes at most once.

### Behaviour of the code worth noting

- The early resolve is scheduled only when `pendingOperations` has dropped to 0, that is,
  in the `before` hook of the reflex's last operation (`dist/stimulus_reflex.js:852-853`).
- `forbidden` is a final stage with no follow-up: its listener only invokes the callbacks
  (`dist/stimulus_reflex.js:414`).
- An operation counts as one of the reflex's own when it carries any `stimulusReflex`
  metadata, whatever reflex id the metadata names (`dist/stimulus_reflex.js:490`).
- The record `registerReflex` creates holds only `finalStage` and `promise`. There is no
  stage or lifecycle field (`dist/stimulus_reflex.js:530-545`).

## Model

| member | source | states |
|---|---|---|
| Common.Dedupe | dist/stimulus_reflex.js:248 | the `Set` pass keeps exactly the values of the input, no value twice, in the order of their first occurrences |
| Common.DedupeAbsorbs | dist/stimulus_reflex.js:248 | appending values already present does not change the deduplicated list |
| Common.Trim | dist/stimulus_reflex.js:248 | the result is the slice of the input left after cutting a prefix and a suffix made only of JavaScript whitespace, and it neither starts nor ends with whitespace |
| Common.TrimEmpty | dist/stimulus_reflex.js:254 | a string trims to empty exactly when all of its characters are whitespace |
| Common.Split | dist/stimulus_reflex.js:254 | `split(sep)` gives at least one part, and no part contains the separator |
| Common.JoinSplit | dist/stimulus_reflex.js:254 | joining the parts of a split with the separator gives back the string |
| Common.SplitJoin | dist/stimulus_reflex.js:254 | splitting parts joined by a separator none of them contains gives back the parts |
| Common.ToLowerInjective | dist/stimulus_reflex.js:217 | lowercasing is one-to-one on tag names that hold no lowercase ASCII letter |
| Naming.Camelize | dist/stimulus_reflex.module.js:63-68 | a non-string gives `""`; the result holds no whitespace or underscore and is no longer than the input |
| Naming.CamelizeWords | dist/stimulus_reflex.module.js:63-68 | words joined by one separator become the first word (first letter lowered, or raised when `uppercaseFirstLetter`) followed by every later word with its first letter raised |
| Naming.CamelizeSingle | dist/stimulus_reflex.module.js:66 | one word with `uppercaseFirstLetter` only has its first letter raised |
| Naming.MethodPart | dist/stimulus_reflex.js:378 | a method part exists exactly when the target holds `#`, and it holds no `#` itself |
| Naming.MethodPartOf | dist/stimulus_reflex.js:378 | the method part of `handler#method` is `method` |
| Naming.SpecificNameOf | dist/stimulus_reflex.module.js:113 | for `handler#word_word…`, `before`/`after`/`finalize` give the stage followed by the capitalised words; other stages give the camelised words followed by the capitalised stage |
| Naming.SpecificNameFromMethod | dist/stimulus_reflex.module.js:113 | the same table stated for any target whose method part is `word_word…` |
| Naming.GenericNameOf | dist/stimulus_reflex.module.js:115 | the generic name is `stage + "Reflex"` for `before`/`after`/`finalize`, and `"reflex"` plus the capitalised stage otherwise |
| Naming.ExtractReflexName | dist/stimulus_reflex.module.js:81-84 | no `#` gives `""`; the name never holds `#` |
| Naming.ExtractSingleLine | dist/stimulus_reflex.js:195 | on a string without line terminators, the match is taken from the last `->` that still has a `#` after it |
| Naming.ExtractOfShape | dist/stimulus_reflex.js:194-197 | for a prefix ending in `->`, a name without `->` or `#`, and `#method`, the result is the name with a trailing `Reflex` dropped |
| Naming.ExtractReflexNameOf | dist/stimulus_reflex.module.js:81-84 | for `event->NameReflex#method` or `NameReflex#method`, the result is the name with a trailing `Reflex` dropped |
| Dom.Body | dist/stimulus_reflex.js:210 | `document.body` is an element of the tree whose tag is `BODY` |
| Dom.PathWith | dist/stimulus_reflex.umd.js:166-183 | every element attached to the document gets a path; only a detached element without an id gets `undefined` |
| Dom.RenderIdPath | dist/stimulus_reflex.umd.js:167 | an element with a non-empty id renders as `//*[@id='<id>']` |
| Dom.RenderBodyPath | dist/stimulus_reflex.umd.js:168 | the body without an id renders as `/html/body` |
| Dom.RenderChildPath | dist/stimulus_reflex.umd.js:169-181 | any other element renders as its parent's path, then `/<lowercase tag>[k]`, where k is one more than the number of earlier element siblings with the same tag |
| Dom.ElementToXPath | dist/stimulus_reflex.js:208-225 | the sibling loop, counting same-tag siblings until it meets the element, returns the rendered path of the element |
| Dom.XPathToElement | dist/stimulus_reflex.js:227 | a lookup answers an element of the tree or nothing |
| DomProofs.FindByIdUnique | dist/stimulus_reflex.js:227 | in a document with unique ids, the id test finds exactly the element carrying the id |
| DomProofs.FixedPathResolves | dist/stimulus_reflex.js:208-225 | in a well-formed document, the path of every element, with the document node contributing the empty prefix, looks up that same element |
| DomProofs.FixedPathInjective | dist/stimulus_reflex.js:208-225 | two elements of a well-formed document never share a path |
| DomProofs.AsWrittenAgrees | dist/stimulus_reflex.js:208-225 | whenever the path is anchored at an id or the body, the source's path and the corrected one coincide |
| DomProofs.AsWrittenResolves | dist/stimulus_reflex.js:208-225 | so the source's path looks up the element for every element below an id or the body |
| DomProofs.HtmlElementPathUnresolved | dist/stimulus_reflex.js:208-225 | for `<html><body></body></html>`, the `<html>` element's path as written is `//*[@id='undefined']/html[1]`, which finds nothing; the corrected `/html[1]` finds it |
| DomProofs.CorrectedPathFacts | dist/stimulus_reflex.js:208-225 | every attached element gets a corrected path; it is the source's path whenever it is anchored at an id or the body; in a well-formed document it looks the element up again |
| Form.HexRoundTrip | dist/stimulus_reflex.js:166 | each hex digit reads back as its value |
| Form.Utf8 | dist/stimulus_reflex.js:166 | a code point has one to four UTF-8 bytes |
| Form.Utf8RoundTrip | dist/stimulus_reflex.js:166 | a character's UTF-8 bytes decode to that character, and the lead byte announces their count |
| Form.EncodeURIComponent | dist/stimulus_reflex.js:166 | the output holds only unreserved characters, `%` and hex digits, hence no `&` or `=` |
| Form.DecodeEncode | dist/stimulus_reflex.js:166 | decoding an encoded component gives back the original string |
| Form.ParseEncodedPair | dist/stimulus_reflex.js:166 | one encoded `k=v` pair parses back to its name and value |
| Form.ParseEncodedPairs | dist/stimulus_reflex.js:161-174 | a list of encoded pairs parses back to the list of pairs |
| Form.SerializeForm | dist/stimulus_reflex.umd.js:125 | a missing form serialises to `""` |
| Form.SerializeFormRoundTrip | dist/stimulus_reflex.umd.js:124-137 | parsing the serialised string on `&` and `=` gives back the form's entries followed by the submitter pair |
| Attributes.KeepNonEmpty | dist/stimulus_reflex.umd.js:201 | exactly the non-empty values are kept |
| Attributes.TrimEach | dist/stimulus_reflex.umd.js:201 | every kept value is trimmed and none is dropped |
| Attributes.AttributeValue | dist/stimulus_reflex.js:247-250 | `null` exactly when the joined and trimmed values are empty; otherwise a non-empty, trimmed string |
| Attributes.KeepNonBlank | dist/stimulus_reflex.js:255 | exactly the tokens that are not blank are kept |
| Attributes.AttributeValues | dist/stimulus_reflex.js:252-256 | `null` and `""` give no tokens; every token is non-blank and holds no space |
| Attributes.ListedTokens | dist/stimulus_reflex.umd.js:200-203 | on tokens, the primary build only deduplicates and the UMD and module builds keep the list as it is |
| Attributes.JoinedTokensRead | dist/stimulus_reflex.js:252-256 | tokens joined with single spaces read back as the same tokens |
| Attributes.AttributeRoundTrip | dist/stimulus_reflex.js:247-256 | reading back the written value of a token list gives the list (deduplicated in the primary build), and the value is `null` exactly for the empty list |
| Attributes.Unperformed | dist/stimulus_reflex.js:570 | exactly the actions that do not mention `#__perform` are kept |
| Attributes.AppendAbsent | dist/stimulus_reflex.umd.js:503 | the value is in the list afterwards |
| Attributes.StimulusReflexAddedOnce | dist/stimulus_reflex.umd.js:505-510 | the UMD setup adds `"stimulus-reflex"` to the controllers once, and only when some reflex has no controller and it is not already listed |
| Attributes.ActionsAddedIfAbsent | dist/stimulus_reflex.umd.js:497-512 | the UMD setup keeps the existing actions in front, adds exactly each reflex's `event->identifier#__perform` action, and keeps a list without repeats without repeats |
| Attributes.PrimaryAppendsAll | dist/stimulus_reflex.js:571-576 | the primary setup appends one controller and one action per reflex name, in order, after the existing ones |
| Attributes.PrimaryLists | dist/stimulus_reflex.js:571-576 | the same, stated as the existing list followed by the list computed from the names |
| Attributes.ControllersStep | dist/stimulus_reflex.umd.js:497-511 | one step of the controller loop, per build |
| Attributes.ActionsStep | dist/stimulus_reflex.umd.js:497-511 | one step of the action loop, per build |
| Attributes.ApplyDeclarations | dist/stimulus_reflex.umd.js:497-511 | the loop over the reflex names leaves the lists the step-wise definitions describe |
| Attributes.ReflexElement.SetupDeclarativeReflexes | dist/stimulus_reflex.js:564-585 | `data-controller` and `data-action` are written only when the new value exists and differs, in that order, and `data-reflex` is untouched |
| Attributes.ReflexElement.UpdateController | dist/stimulus_reflex.js:579-581 | the controller attribute is rewritten only when the value exists and differs |
| Attributes.ReflexElement.UpdateAction | dist/stimulus_reflex.js:582-584 | the action attribute is rewritten only when the value exists and differs |
| Attributes.AttributeValuesTokens | dist/stimulus_reflex.js:252-256 | a space-separated attribute reads as a list of non-empty tokens without whitespace |
| Attributes.ActionIsToken | dist/stimulus_reflex.js:573 | a generated action is one token and mentions `#__perform` |
| Attributes.UnperformedDedupe | dist/stimulus_reflex.js:570 | filtering out performed actions commutes with deduplication |
| Attributes.ControllersSecondPass | dist/stimulus_reflex.js:577 | recomputing `data-controller` from its own output gives the same value |
| Attributes.ActionsSecondPass | dist/stimulus_reflex.js:578 | recomputing `data-action` from its own output gives the same value |
| Attributes.SetupIdempotent | dist/stimulus_reflex.js:564-585 | a second setup of an element writes neither attribute again, in every build |
| Dataset.DataAttributeKeys | dist/stimulus_reflex.js:351-361 | the keys are exactly the attribute names starting with `data-` |
| Dataset.DataAttributeValue | dist/stimulus_reflex.js:351-361 | each key holds the value of its last attribute of that name |
| Dataset.ExtractDataAttributes | dist/stimulus_reflex.js:351-361 | the loop over the attributes builds that map |
| Dataset.ElementsFromTokens | dist/stimulus_reflex.js:276-316 | no tokens give no elements; otherwise the element itself comes first |
| Dataset.GetElementsFromTokens | dist/stimulus_reflex.js:276-316 | the loop over the tokens, with one query per relation, returns exactly the elements `ElementsFromTokens` describes |
| Dataset.EmptyTokenIsElementOnly | dist/stimulus_reflex.js:321 | an empty `data-reflex-dataset` yields the element alone |
| Dataset.MergedEarlierWins | dist/stimulus_reflex.umd.js:274-277 | in the merged `dataset`, a key takes its value from the earliest listed element carrying it |
| Dataset.MergedMissing | dist/stimulus_reflex.umd.js:274-277 | a key no listed element carries is absent |
| Dataset.MergedIsFirstValue | dist/stimulus_reflex.umd.js:267-298 | `dataset` and `datasetAll` have the same keys, and each `dataset` value is the first of its `datasetAll` values |
| Dataset.KeysOfValues | dist/stimulus_reflex.umd.js:286-296 | a key is in `datasetAll` exactly when some listed element carries it |
| Dataset.PushedAll | dist/stimulus_reflex.umd.js:286-296 | pushing one element's data attributes extends `datasetAll` by that element's values |
| Dataset.CollectDatasetAll | dist/stimulus_reflex.js:336-347 | the nested push loop builds `datasetAll`: each key with the list of its values in element order |
| Dataset.ExtractElementDataset | dist/stimulus_reflex.js:318-349 | the result is the merged `dataset` and the collected `datasetAll` over the token-resolved elements |
| Dataset.OwnAttributesWin | dist/stimulus_reflex.js:324-332 | when `data-reflex-dataset` is present, the element's own data attributes keep their values in `dataset` |
| Records.FirstReflexId | dist/stimulus_reflex.js:691-694 | the id is the `reflexId` option when non-empty, else the generated one |
| Records.AsList | dist/stimulus_reflex.js:697 | a string selector becomes a one-element list; a list stays as it is |
| Records.IncludeFlagTable | dist/stimulus_reflex.js:722-729 | a present attribute decides the flag (anything but `"false"` includes); otherwise the option does |
| Records.FormSelectorOf | dist/stimulus_reflex.js:718-721 | a non-empty option wins over the attribute |
| Records.ReflexData.constructor | dist/stimulus_reflex.js:676-686 | the fields are the arguments and nothing is memoised yet |
| Records.ReflexData.Attrs | dist/stimulus_reflex.js:687-690 | memoised: the first read takes the option, else the element's attributes, and later reads return the same map |
| Records.ReflexData.ReflexId | dist/stimulus_reflex.umd.js:538-541 | memoised: repeated reads return the same id, the option first, else the generated one |
| Records.ReflexData.Selectors | dist/stimulus_reflex.umd.js:542-545 | memoised: a string selector becomes a one-element list, and without the option the reflex roots are used |
| Records.ReflexData.Dataset | dist/stimulus_reflex.js:702-705 | memoised: the first read extracts the element's dataset |
| Records.ReflexData.ResolveLate | dist/stimulus_reflex.umd.js:546-548 | `resolveLate` is true only when the option is true; it defaults to false |
| Records.ReflexData.InnerHtml | dist/stimulus_reflex.js:706-708 | the element's HTML when included, else `""` |
| Records.ReflexData.TextContent | dist/stimulus_reflex.js:709-711 | the element's text when included, else `""` |
| Records.ReflexData.XPathController | dist/stimulus_reflex.js:712-714 | the controller element's path: present for an attached element, the source's own path whenever it is anchored at an id or the body, and looking the element up again in a well-formed document |
| Records.ReflexData.XPathElement | dist/stimulus_reflex.js:715-717 | the same for the reflex element |
| Records.ElementPath | dist/stimulus_reflex.js:208-225 | the path of one element of the page, with the facts above |
| Records.ReflexData.SuppressLogging | dist/stimulus_reflex.js:730-732 | true when the option is true or the attribute is present |
| Records.ReflexData.ValueOf | dist/stimulus_reflex.js:733-754 | the record holds every getter's value (the paths corrected at the document node), the memos are filled, and the package version is attached |
| Records.BuildReflexData | dist/stimulus_reflex.js:1016-1017 | constructing a `ReflexData`, reading its id and taking `valueOf()` gives the record `InitialData` describes (the paths corrected at the document node), with the id it reads |
| Records.ValueOfTwice | dist/stimulus_reflex.js:1016-1036 | the first `valueOf()` gives the record `InitialData` describes; the one inside the timer, on the page as it is then, gives that record with the non-memoised getters read again |
| Records.RereadSamePage | dist/stimulus_reflex.js:687-754 | on an unchanged page the second `valueOf()` gives back the first record |
| Records.RereadKeepsMemos | dist/stimulus_reflex.js:687-732 | a later `valueOf()` keeps `attrs`, `dataset`, `datasetAll`, `selectors`, `reflexId` and every other stored field; only the paths, the included HTML and text, `suppressLogging` and `formSelector` follow the page |
| Records.ReflexIdOfRecord | dist/stimulus_reflex.js:691-694 | the record's id is the option when non-empty, else the generated one, and is never empty when the generated one is not |
| Records.SelectorsOfRecord | dist/stimulus_reflex.js:695-698 | the record's selectors are the one string option, or the list option, or the reflex roots |
| Transport.StatusClasses | dist/stimulus_reflex.js:825-836 | afterwards the body shows exactly the current status class, and no other class changes |
| Transport.UmdStatusClasses | dist/stimulus_reflex.umd.js:620-638 | the UMD build only replaces: a body with neither class keeps neither, and one with a status class shows exactly the current status |
| Transport.Enqueued | dist/stimulus_reflex.js:820-823 | enqueueing changes neither the flag, the subscription nor the classes |
| Transport.AfterConnect | dist/stimulus_reflex.js:796-803 | connecting sets the flag, keeps the subscription and dispatches `stimulus-reflex:connected` then `stimulus-reflex:action-cable:connected` |
| Transport.AfterReject | dist/stimulus_reflex.js:805-811 | `rejected` clears the flag, leaves the queue, what was sent and the subscription alone, and dispatches `stimulus-reflex:rejected` then `stimulus-reflex:action-cable:rejected` |
| Transport.AfterDisconnect | dist/stimulus_reflex.js:813-818 | `disconnected` clears the flag, leaves the queue, what was sent and the subscription alone, and dispatches `stimulus-reflex:disconnected` then `stimulus-reflex:action-cable:disconnected`, both carrying `willAttemptReconnect` |
| Transport.AfterContentLoaded | dist/stimulus_reflex.js:770-773 | on `DOMContentLoaded` the primary build clears the flag and the UMD build (`dist/stimulus_reflex.umd.js:770-772`) leaves it alone; in both the body shows the disconnected status, no other class changes, and nothing is sent, queued or dispatched |
| Transport.Subscribed | dist/stimulus_reflex.js:779-794 | afterwards a subscription exists, and subscribing again changes nothing |
| Transport.EnqueueSendsIffActive | dist/stimulus_reflex.js:820-823 | a record is sent at once exactly when the channel is active; otherwise it joins the end of the queue and nothing is sent |
| Transport.DeliveryOrder | dist/stimulus_reflex.js:796-823 | the queue is empty while active, and records leave in the order they were enqueued across enqueue, connect, reject, disconnect and subscribe |
| Transport.EnqueueAllInactive | dist/stimulus_reflex.js:822 | records enqueued while disconnected join the queue in order |
| Transport.QueuedSentOnConnect | dist/stimulus_reflex.js:796-803 | on connect the queued records are sent in the order they were triggered, after those sent before, and the queue is left empty |
| Transport.SubscribeIdempotent | dist/stimulus_reflex.js:780 | subscribing twice is subscribing once |
| Transport.ActionCableTransport.constructor | dist/stimulus_reflex.js:767-777 | inactive, empty queue, nothing sent, no subscription |
| Transport.ActionCableTransport.ConnectionStatusClass | dist/stimulus_reflex.js:825-836 | the class list becomes the status classes for the current flag, per build |
| Transport.ActionCableTransport.Enqueue | dist/stimulus_reflex.js:820-823 | the transport becomes `Enqueued` of its old state |
| Transport.ActionCableTransport.Connected | dist/stimulus_reflex.js:796-803 | the status and the two `connected` events first, then the `forEach` over the queue sends every queued record in order, then the queue is emptied: the transport becomes `AfterConnect` of its old state |
| Transport.ActionCableTransport.Rejected | dist/stimulus_reflex.js:805-811 | the transport becomes `AfterReject` of its old state, events included |
| Transport.ActionCableTransport.Disconnected | dist/stimulus_reflex.js:813-818 | the transport becomes `AfterDisconnect` of its old state with the reconnect flag, events included |
| Transport.ActionCableTransport.ContentLoaded | dist/stimulus_reflex.js:770-773 | the transport becomes `AfterContentLoaded` of its old state, in every build |
| Transport.ActionCableTransport.Subscribe | dist/stimulus_reflex.js:779-794 | the transport becomes `Subscribed` of its old state |
| Engine.Tagged | dist/stimulus_reflex.js:490 | only operations carrying `stimulusReflex` metadata are taken |
| Engine.Untagged | dist/stimulus_reflex.js:492 | only operations without metadata remain |
| EngineProofs.Partition | dist/stimulus_reflex.js:488-494 | the collected operations (last to first) and the remaining ones together are exactly the batch as a multiset; an operation is collected exactly when it is tagged, and remains exactly when it is not |
| EngineProofs.UrlCheckSeesAll | dist/stimulus_reflex.js:495-497 | the URL check fails exactly when some tagged operation of the batch was rendered for another page |
| EngineProofs.ReceivedDropsBatch | dist/stimulus_reflex.js:483-497 | a batch without `cableReady`, with another executor version (after `.pre` becomes `-pre`) or from another page leaves the whole state unchanged: no record, promise or map changes and nothing is performed |
| EngineProofs.ReceivedKnownReflex | dist/stimulus_reflex.js:518-523 | for a known id, total and pending become the number of tagged operations, completed becomes 0, the untagged remainder becomes the piggyback list, the tagged operations are performed, and nothing else changes |
| EngineProofs.ReceivedIsolated | dist/stimulus_reflex.js:505 | with isolation on, an unknown id creates no record and performs nothing |
| EngineProofs.ReceivedControllerGone | dist/stimulus_reflex.js:506-508 | with isolation off, an unknown id whose controller path finds no element changes nothing (the source throws there) |
| EngineProofs.ReceivedClones | dist/stimulus_reflex.js:505-522 | with isolation off, an unknown id is registered with final stage `finalize` and a new pending promise, its counters set as for a known id, its record stored for the controller element, and its tagged operations performed |
| EngineProofs.ReceivedKeepsSettled | dist/stimulus_reflex.js:482-528 | `received` never changes a settled promise |
| EngineProofs.ReceivedConsistent | dist/stimulus_reflex.js:482-528 | `received` keeps the engine invariant: every final stage is a terminal stage, and every record and every scheduled settlement points at an existing promise |
| EngineProofs.BeforeThreshold | dist/stimulus_reflex.js:850-862 | `beforeDOMUpdate` decrements pending; it schedules work only when pending drops to 0 or below; it schedules the resolve exactly then and only without `resolveLate`; the `success` stage comes last; nothing else changes |
| EngineProofs.AfterThreshold | dist/stimulus_reflex.js:873-885 | `afterDOMUpdate` increments completed; it schedules work only when completed reaches total; it schedules the resolve exactly then and only with `resolveLate`; `finalize` comes last; piggyback operations are performed only then and only when there are some |
| EngineProofs.HooksIgnore | dist/stimulus_reflex.module.js:235-277 | without metadata the hooks do nothing; an unregistered id changes nothing either (the source throws there) |
| EngineProofs.FinalStageTable | dist/stimulus_reflex.js:912-963 | `nothing` and `error` set the final stage to `after`; `halted` and `forbidden` set their own name |
| EngineProofs.RouteOutcome | dist/stimulus_reflex.js:888-910 | a routed outcome sets the final stage, schedules a reject carrying the body for `error` and a resolve otherwise, then the outcome's stage on the elements the reply's two paths resolve to; it stores the body only for `error` with a controller element and performs the piggyback operations when present |
| EngineProofs.RouteIgnores | dist/stimulus_reflex.js:897 | messages without metadata, and event types the build does not route, change nothing |
| EngineProofs.ForbiddenOnlyInPrimary | dist/stimulus_reflex.umd.js:699 | `forbidden` is routed by the primary build only |
| EngineProofs.HooksKeepSettled | dist/stimulus_reflex.js:844-910 | the hooks and the router never touch a promise; they only schedule settlements |
| EngineProofs.HooksConsistent | dist/stimulus_reflex.js:844-963 | the hooks and the router keep the engine invariant |
| EngineProofs.SettleOnce | dist/stimulus_reflex.js:853 | a promise settles once: a second resolve or reject leaves every cell as it was |
| EngineProofs.RepeatedResolveKeepsFirst | dist/stimulus_reflex.js:853 | when pending drops below 0 and `resolve` runs again, the promise keeps its first value |
| EngineProofs.SettleKeeps | dist/stimulus_reflex.js:534-540 | settling never changes an already settled cell |
| EngineProofs.KeepsSettledTransitive | dist/stimulus_reflex.js:534-540 | "settled cells stay settled" composes over steps |
| EngineProofs.RunNextKeepsSettled | dist/stimulus_reflex.js:1023-1039 | running any deferred action keeps settled promises settled |
| EngineProofs.RunNextConsistent | dist/stimulus_reflex.js:1023-1039 | running any deferred action keeps the engine invariant |
| EngineProofs.RegisterConsistent | dist/stimulus_reflex.js:530-545 | registering adds a pending promise and keeps the invariant |
| EngineProofs.CallbackOrder | dist/stimulus_reflex.module.js:113-122 | the specific callback is called before the generic one; each only when the controller defines it, with the stored error; there are no calls exactly when neither is defined |
| EngineProofs.InvokeClears | dist/stimulus_reflex.js:374-394 | the callbacks are appended; when the stage is the record's final stage the id's `reflexController`, `reflexData` and `reflexError` entries are deleted, and otherwise none is |
| EngineProofs.DispatchGuard | dist/stimulus_reflex.module.js:152-158 | without a controller element or a registered controller, dispatching and invoking change nothing |
| EngineProofs.InvokeFrame | dist/stimulus_reflex.js:374-394 | invoking touches only the calls and the id's entries, and only deletes them |
| EngineProofs.DispatchFrame | dist/stimulus_reflex.js:420-457 | dispatching (with its listeners) changes no record, promise, task, performed batch or transport state, and only deletes per-element entries |
| EngineProofs.ListenerFrame | dist/stimulus_reflex.js:396-418 | the same for a document listener |
| EngineProofs.Chain | dist/stimulus_reflex.js:396-418 | the chain of a stage starts with that stage |
| EngineProofs.DispatchChain | dist/stimulus_reflex.js:396-457 | dispatching a stage emits the stage events of its whole chain, `nothing → success → after` and `error → after`, in order |
| EngineProofs.ListenerChain | dist/stimulus_reflex.js:398-410 | the `nothing` listener dispatches `success`, the `success` and `error` listeners dispatch `after`, and the others dispatch nothing |
| EngineProofs.DispatchClears | dist/stimulus_reflex.js:389-393 | when a chain ends at the record's final stage, the id's per-element entries are gone afterwards |
| EngineProofs.ListenerClears | dist/stimulus_reflex.js:389-393 | the same, starting from a listener |
| EngineProofs.OutcomeChainsEndAtFinalStage | dist/stimulus_reflex.js:396-418 | each outcome's chain ends at the final stage the router sets: `nothing → success → after`, `error → after`, `halted`, `forbidden` |
| EngineProofs.ConsistentKeepsChains | dist/stimulus_reflex.js:530-534 | under the invariant no record's final stage is `before`, `success` or `error` |
| EngineProofs.StimulateRefuses | dist/stimulus_reflex.umd.js:808-820 | a number input with `badInput` returns with no change; the UMD build throws, changing nothing, when the connection is closed or the subscription inactive; only the UMD build throws |
| EngineProofs.BeforeKeepsEntries | dist/stimulus_reflex.js:1022 | the `before` stage keeps the id's per-element entries and first emits `stimulus-reflex:before` |
| EngineProofs.StimulateStarts | dist/stimulus_reflex.js:1001-1043 | a started reflex stores its controller and record for the controller element, emits `before`, schedules the send, registers a pending promise with final stage `finalize`, and touches neither the transport nor the performed batches |
| EngineProofs.ScheduledSendConsistent | dist/stimulus_reflex.js:1023 | scheduling a send keeps the invariant |
| EngineProofs.StimulateConsistent | dist/stimulus_reflex.js:1001-1043 | `stimulate` keeps the invariant and keeps settled promises settled |
| EngineProofs.SendSerializes | dist/stimulus_reflex.js:1023-1039 | the deferred send carries `""` when serialisation is off (the attribute on the element as it is then overrides the option) and otherwise a string that parses back to the form's pairs followed by the reflex element's submitter pair; `params` is the one stored for the id; the rest is the record re-read on the current page, so the memoised fields are those taken when the reflex started; the record is stored for the controller element and enqueued (the UMD build sends it at once) |
| EngineProofs.HtmlControllerLosesReply | dist/stimulus_reflex.js:888-910 | with the `<html>` element as controller, the path the source writes finds nothing, so a routed reply stores no error and its stage is dispatched without a controller element, which changes no state: no callback runs and nothing is cleared |
| Runtime.StimulusReflex.constructor | dist/stimulus_reflex.js:59 | the engine starts empty with an inactive transport |
| Runtime.StimulusReflex.RegisterReflex | dist/stimulus_reflex.js:530-545 | the fields become `Register` of the old state |
| Runtime.StimulusReflex.SettlePromise | dist/stimulus_reflex.js:534-540 | the fields become `Settle` of the old state |
| Runtime.StimulusReflex.InvokeLifecycleMethod | dist/stimulus_reflex.js:374-394 | the fields become `Invoke` of the old state |
| Runtime.StimulusReflex.DispatchLifecycleEvent | dist/stimulus_reflex.js:420-457 | the fields become `Dispatch` of the old state |
| Runtime.StimulusReflex.LifecycleListener | dist/stimulus_reflex.js:396-418 | the fields become `Listener` of the old state |
| Runtime.StimulusReflex.Partition | dist/stimulus_reflex.js:488-494 | the reverse loop with `push` and `splice` leaves the tagged operations last to first and the untagged ones in order |
| Runtime.StimulusReflex.Received | dist/stimulus_reflex.js:482-528 | the fields and the receipt are those of `Received` |
| Runtime.StimulusReflex.BeforeDOMUpdate | dist/stimulus_reflex.js:844-863 | the fields are those of `BeforeDOMUpdate` |
| Runtime.StimulusReflex.AfterDOMUpdate | dist/stimulus_reflex.js:865-886 | the fields are those of `AfterDOMUpdate` |
| Runtime.StimulusReflex.RouteReflexEvent | dist/stimulus_reflex.js:888-910 | the fields are those of `Route` |
| Runtime.StimulusReflex.RunNextTask | dist/stimulus_reflex.js:1023-1039 | running the first deferred action on the current page leaves the fields and the transport as `RunNext` describes |
| Runtime.StimulusReflex.SendDeferred | dist/stimulus_reflex.js:1024-1039 | the timer body (read the stored `params`, check the attribute, serialise the form, take `valueOf()` again, store and enqueue) leaves the fields and the transport as `RunTask` describes |
| Runtime.StimulusReflex.Stimulate | dist/stimulus_reflex.js:1001-1043 | the fields and the outcome are those of `Stimulate` |

## Left out

- Logging (`Log`, `Debug$1`, `Deprecate`, timestamps): presentation only. Debug is taken as
  off, so the record's `warned` flag, which only debug output sets, is not modelled.
  `rejected` refers to an undefined `Debug` (`dist/stimulus_reflex.js:810`); only its flag
  and class effects are modelled.
- `uuidv4`: a foreign randomness source. The id it would produce is the parameter
  `generated`.
- The browser DOM:
  - `CustomEvent` dispatch and jQuery triggering become the `events` log of the engine
    and, for the channel events, of the transport;
  - `document.evaluate` and `XPathToArray` become the tree lookup and the `query` parameter;
  - `querySelectorAll`, `closest` and `MutationObserver` are replaced by parameters;
  - `FormData` iteration becomes an explicit entry list.
- `extractElementAttributes` and `getReflexRoots`: their answers depend on live DOM state,
  so each element carries them as given values (`extracted`, `roots`).
- `setTimeout` timing and `debounce`: only the order of the deferred actions is modelled.
- ActionCable consumer and subscription creation, and `isActionCableConnectionOpen`: network
  plumbing. Its answer is the parameter `connectionOpen`, and `subscription.send` is the
  `sent` list.
- CableReady's execution of operations: the `performed` list records each batch handed to
  it, and its before/after event trace is the sequence of hook calls.
- `Schema.set`, `packageInfo` and `initialize` wiring: configuration. The schema's
  attribute names are constants, and `isolate` and the executor version are `Config`
  fields.
- `findControllerByReflexName`: its regular expression contains a garbled character
  (`dist/stimulus_reflex.js:477`), so its intended behaviour is unclear. The controller it
  finds for each reflex name is the parameter `lookup`.
- `javascript/index.js`: a re-export with no logic.
- The module build has no transport, `received` or `stimulate`. `Engine.Received` and
  `Engine.Stimulate` require another build.
- The resolve and reject values carry only the payload (or the error body), not the
  `element`, `event` and `data` fields of the object the source passes.
- Engine.Register: starts the three counters at 0, where the source leaves them
  `undefined` until `received` sets them. The hooks can reach them before then: any
  operation with metadata is performed (`dist/stimulus_reflex.js:490`), so its hook can
  name a reflex registered here but not yet received (`dist/stimulus_reflex.js:852`, `875`).
  In the source the counter then becomes `NaN`; in the model it becomes -1 or 1. Both
  compare alike at the thresholds (`dist/stimulus_reflex.js:853`, `876`): `NaN > 0` and
  `-1 > 0` are false, as are `NaN < undefined` and `1 < 0`, so both schedule the settlement
  and the stage. The source then throws on `piggybackOperations.length` of the unreceived
  record, after scheduling; the model has no piggyback operations there and performs none.
- EngineProofs.ReceivedKnownReflex: the source also copies the first tagged operation's
  `payload` into that operation's metadata object, so the performed batch shares it. The
  model stores the payload on the reflex's record only.
- Engine.Outgoing: the form the send serialises is a parameter. The source finds it with
  `closest` and `querySelector` from the live `formSelector`, which the model does not
  search for.
- Records.ReflexData.ValueOf, Records.BuildReflexData, Records.ReflexData.XPathController,
  Records.ReflexData.XPathElement: the record carries the corrected path (`Dom.FixedPathOf`),
  not the one the source writes. The two differ only for an element whose ancestors carry
  neither an id nor the body (see Findings). What the source's path does to a reply is
  stated by EngineProofs.HtmlControllerLosesReply.
- Naming.Camelize: case mapping covers ASCII letters only (`ToUpperChar`, `ToLowerChar`).
  JavaScript's `toUpperCase` maps the whole of Unicode. So `camelize("ß")` is `"SS"`
  in the source, longer than its input, which the bound on the result's length does not
  allow. `camelize("_été")` is `"Été"` in the source and `"été"` in the model.
- Engine.Invoke: with a controller entry that is missing or `null`, the source throws a
  TypeError before calling anything. The model leaves the state unchanged.
- EngineProofs.ReceivedControllerGone: the clone path dereferences the controller
  element without a check (`dist/stimulus_reflex.js:506-508`). A missing element is a
  TypeError before any write, so it is modelled as an unchanged state with the receipt
  `ControllerMissing` rather than as a precondition. The same holds for an unregistered id
  in the hooks and the router.
- Runtime.StimulusReflex.Stimulate: the UMD build throws only after `ReflexData` is built
  and its id read. Those reads have no effect outside the record, so the model throws with
  the state unchanged.

## Findings

| source | as written | input that shows it | evidently intended | confidence | as-written member | corrected member |
|---|---|---|---|---|---|---|
| dist/stimulus_reflex.js:208-225 | for an element without an id below the document node, the recursion reaches `document`, whose `id` is `undefined` rather than `""`, so the path starts `//*[@id='undefined']` | `<html><body></body></html>` with the `<html>` element as the reflex or controller element gives `//*[@id='undefined']/html[1]`, which no element matches | the document node contributes the empty prefix, giving `/html[1]`, which looks the element up again; a reply naming the path as written reaches no controller (EngineProofs.HtmlControllerLosesReply) | not executed | DomProofs.HtmlElementPathUnresolved | DomProofs.FixedPathResolves |
