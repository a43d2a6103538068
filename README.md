# The platform's reactive core and the development service worker, in Dafny

This project models the reactive core of `the-platform`, a small front-end
framework, and the development service worker of the search-results page.

## The framework's core

The framework builds pages from observable cells and from renderers that
keep parts of the document in step with those cells.

- **Cells.** A `Property` holds a value and dispatches a `changed` event on
  every `set`. A `ComputedProperty` recomputes a function of its
  dependencies whenever any one of them changes.
- **References.** An `ElementRef` is ready from the start. A `LazyRef`
  becomes ready once a `ShadowDomRenderer` has rendered.
- **Renderers.**
  - `TextContentRenderer` shows a value as an element's text.
  - `CondRenderer` puts an element in the tree or takes it out.
  - `ListRenderer` keeps one template clone per array entry.
  - `ShadowDomRenderer` fills a shadow root with clones of its children.
- **Links.**
  - `DownLink` writes a cell's value into an attribute or a field of an
    element.
  - `UpLink` writes an element event's value into a property.
  - `TwoWayLink` combines the two and relays the up link's `triggered`
    event.
- **Other parts.** `Nodes.querySelector` searches the top-level nodes of one
  list entry. `createModule` wraps an initialiser so that it runs at most
  once.

## How the model works

The browser's state is modelled explicitly:

- **Document.** It is a `Document` object holding a map from node
  identifiers to node records:
  - each record has a kind, a parent, children, an optional shadow root,
    text, attributes, fields and element listeners;
  - a well-formedness invariant ties parents and children together.
- **Event target.** An `EventTarget` is a list of listener registrations.
  It ignores a second registration of the same (event, callback) pair and
  drops `once` listeners after their dispatch. A ghost history records
  every event dispatched on it.
- **Callbacks.** A callback is data: either a bound method of one of the
  model's objects (`Bound(owner, role)`) or a foreign one (`External(id)`).
  - `dispatchEvent` returns the callbacks it calls, in order. The caller is
    the one who delivers the event to them.
  - A thrown exception is an `ok == false` result. Its error path is
    modelled: the state at the moment of the throw is kept.

Every class keeps its state in fields and has `modifies` frames. Each method
is proved against the specification functions over that state, such as
`Added`, `Removed`, `Dispatched`, `Invoked`, `ShowText`, `Reflect`, `Swap`,
`RemoveAll`, `Applied` and `Reconciled`. Lemmas establish what those
functions promise: order, once-only delivery, idempotence, round trips and
the shape of a list reconciliation.

## The list renderer's reconciliation

The list renderer is modelled as written. Its quirks are proved rather than
smoothed over:

- `#prev` is only ever pushed to.
- Growing after a shrink uses the stale length (`StaleGrowth`).
- A second shrink throws `NotFoundError` when it meets entries that were
  already removed (`SecondShrinkFails`).

## The service worker

The service worker keeps a two-entry table of URL prefixes. For each
`fetch`, it responds with the request rewritten by the first entry whose
`from` starts the URL, or else with the original request. The model proves
three things about it:

- the first matching entry wins;
- a rewritten URL matches no entry of the table; and so
- rewriting is idempotent.

## Model

| member | source | states |
|---|---|---|
| ModuleGuard.Module.constructor | the-platform/the-platform.js:27-28 | the returned closure starts with `inited` false and has not started the initialiser |
| ModuleGuard.Module.Call | the-platform/the-platform.js:29-35 | a call starts the initialiser exactly when no earlier call did, always leaves `inited` set, and over any number of calls the initialiser starts at most once |
| Events.Added | the-platform/the-platform.js:160 | after `addEventListener` the callback is registered for the event |
| Events.AddedSpec | the-platform/the-platform.js:160 | registering keeps earlier registrations in place and appends at most the new one, exactly when the callback was not yet registered for that event |
| Events.AddedFresh | the-platform/the-platform.js:168 | a callback not yet registered is registered with the `once` flag it was given |
| Events.AddedIdempotent | the-platform/the-platform.js:261 | registering the same callback again, with or without `once`, changes nothing |
| Events.Removed | the-platform/the-platform.js:405 | after `removeEventListener` the callback is no longer registered for the event, every other registration stays and none is added |
| Events.Invoked | the-platform/the-platform.js:175 | a dispatch calls only callbacks registered for the event, and it calls every one of them |
| Events.Dispatched | the-platform/the-platform.js:175 | after a dispatch the event's `once` listeners are gone and every other registration stays |
| Events.InvokedAppend | the-platform/the-platform.js:261 | listeners are called in registration order: a later registration runs after every earlier one |
| Events.DispatchedOtherEvent | the-platform/the-platform.js:203 | dispatching one event leaves who a dispatch of another event would call unchanged |
| Events.InvokedDistinct | the-platform/the-platform.js:240-245 | with no repeated registrations, a dispatch calls each listener once |
| Events.OnceListenerRunsOnce | the-platform/the-platform.js:160 | a `once` listener is called by the next dispatch of its event and never again |
| Events.ListenerPersists | the-platform/the-platform.js:409 | a listener registered without `once` is called by every dispatch of its event and stays registered |
| Events.EventTarget.AddEventListener | the-platform/the-platform.js:409 | the listener list becomes `Added(...)` of the old one; no event is dispatched |
| Events.EventTarget.RemoveEventListener | the-platform/the-platform.js:405 | the listener list becomes `Removed(...)` of the old one; no event is dispatched |
| Events.EventTarget.DispatchEvent | the-platform/the-platform.js:412 | the event is recorded once, the callbacks called are `Invoked` of the old listeners (all distinct), and the `once` ones are dropped |
| Cells.Property.constructor | the-platform/the-platform.js:229-232 | a new property holds the default value and has no listener and no event |
| Cells.Property.Set | the-platform/the-platform.js:238-247 | `set(v)` stores `v` and dispatches exactly one `changed` event carrying `v`, even when the value is the same as before |
| Cells.Values | the-platform/the-platform.js:257 | the dependency values have one entry per dependency |
| Cells.ValuesAt | the-platform/the-platform.js:257 | entry `i` of the dependency values is the current value of dependency `i` |
| Cells.SubscribeAll | the-platform/the-platform.js:260-262 | every dependency gets the update callback as a non-`once` `changed` listener, and a dependency listed twice is subscribed once |
| Cells.ComputedProperty.constructor | the-platform/the-platform.js:255-263 | the first value is `fn` of the dependencies' values, one `changed` event announces it, and the update callback is subscribed on every dependency |
| Cells.ComputedProperty.Update | the-platform/the-platform.js:269-278 | `fn` is recomputed over the dependencies' current values, and one `changed` event goes out without any equality check |
| Cells.UpdateRunsOncePerChange | the-platform/the-platform.js:260-262 | every `changed` of a dependency calls the update exactly once, and the update stays subscribed for the next change |
| NodeGroups.FirstMatchingAppend | the-platform/the-platform.js:494-503 | the first hit in two lists searched one after the other is the first list's hit, or else the second list's |
| NodeGroups.ScopeStep | the-platform/the-platform.js:494-503 | the search over the list either stops at the current entry or goes on with the rest of the list |
| NodeGroups.OwnHit | the-platform/the-platform.js:496-502 | from an element, the element itself is found when it matches, else `querySelector` among its descendants |
| NodeGroups.Nodes.constructor | the-platform/the-platform.js:489-491 | the object keeps the given node list |
| NodeGroups.Nodes.QuerySelector | the-platform/the-platform.js:493-506 | the result is the first element, in one document-order search over the whole list and each entry's descendants, that the selector matches; `null` when none matches |
| Refs.ElementRef.constructor | the-platform/the-platform.js:510-514 | an element reference holds its element and is ready from the start |
| Refs.ElementRef.OnReady | the-platform/the-platform.js:516-518 | `onReady` calls the callback at once, every time |
| Refs.LazyRef.constructor | the-platform/the-platform.js:150-162 | if the renderer has rendered, the reference is ready at once with the element found in the shadow root and one `ready` event; otherwise it waits with a `once` listener on `rendered` |
| Refs.LazyRef.OnReady | the-platform/the-platform.js:164-170 | a ready reference runs the callback at once; otherwise the callback is queued once as a `once` listener of `ready` |
| Refs.LazyRef.Init | the-platform/the-platform.js:172-176 | with a shadow root, the element is looked up there, `ready` is set and one `ready` event goes out; without one it throws and nothing changes; `ready` never goes back to false |
| Refs.RefOnReady | the-platform/the-platform.js:164-170 | `onReady` on either kind of reference: the callback runs now exactly when the reference is ready, and is otherwise queued as a `once` listener |
| Refs.FilledStep | the-platform/the-platform.js:198-200 | appending one more child's clone to the shadow root extends what it is filled with, in order |
| Refs.AttachedFilled | the-platform/the-platform.js:196-200 | attaching a shadow root and filling it changes only the host's shadow link and adds the root filled with fresh nodes |
| Refs.ShadowDomRenderer.constructor | the-platform/the-platform.js:184-189 | the renderer starts unrendered with no shadow root, and keeps the children as a list |
| Refs.ShadowDomRenderer.Render | the-platform/the-platform.js:191-193 | `render()` asks the reference to run `#init` when ready: now when it is ready, or else once it becomes ready; there is no guard against a second render. The reference's `ready` history never changes, and a ready reference keeps its listeners. |
| Refs.ShadowDomRenderer.Init | the-platform/the-platform.js:195-204 | with a host that can take a shadow root, the root is attached, filled with a fresh clone of every child in order, `rendered` is set and announced; without an element or when attachment is refused it throws and the document is unchanged |
| Refs.ShadowDomRenderer.AppendAll | the-platform/the-platform.js:198-200 | every child's clone is appended to the shadow root in declared order, and no other node changes |
| Refs.ShadowDomRenderer.QuerySelector | the-platform/the-platform.js:206-208 | the lookup has a result exactly when there is a shadow root; without one it throws |
| TextContent.ShowTextSpec | the-platform/the-platform.js:415-417 | showing a value empties the element, whose former children become detached, and leaves the value as its only text; no other node changes; showing it again changes nothing, and nothing changes when the element already holds just that text |
| TextContent.ShowTextLatest | the-platform/the-platform.js:415-417 | two renders in a row leave what the second one shows |
| TextContent.TextContentRenderer.constructor | the-platform/the-platform.js:395-402 | a new renderer is unrendered and has no listener |
| TextContent.TextContentRenderer.Start | the-platform/the-platform.js:401 | `ref.onReady(#init)`: `#init` runs now when the reference is ready, or else is queued once. The reference's `ready` history never changes, and a ready reference keeps its listeners. |
| TextContent.TextContentRenderer.Init | the-platform/the-platform.js:408-413 | the handler is subscribed first; with an element, its children are replaced by the value's text and `rendered` is set and announced once; without one it throws after the subscription and before `rendered` |
| TextContent.TextContentRenderer.Handler | the-platform/the-platform.js:415-417 | the element's children are replaced by the current value's text, as `ShowText` says; without an element it throws and nothing changes |
| TextContent.TextContentRenderer.Destroy | the-platform/the-platform.js:404-406 | the handler is unsubscribed, and no later `changed` calls it |
| Conditional.HideShowRestores | the-platform/the-platform.js:560-566 | hiding the element and then showing it gives back the document as it was: the element returns to its own slot and the placeholder is detached again |
| Conditional.CondRenderer.constructor | the-platform/the-platform.js:529-540 | the placeholder is a fresh, detached, empty text node; nothing is attached, the renderer is unrendered, and the slot invariant `Occupies` holds |
| Conditional.CondRenderer.Start | the-platform/the-platform.js:539 | `ref.onReady(#init)`: `#init` runs now when the reference is ready, or else is queued once. The reference's `ready` history never changes, and a ready reference keeps its listeners. |
| Conditional.CondRenderer.Init | the-platform/the-platform.js:546-554 | the handler is subscribed first; the element is taken from the reference, and then one handler run decides what moves; `rendered` is set and announced only when nothing threw; `Occupies` holds afterwards |
| Conditional.CondRenderer.Subscribe | the-platform/the-platform.js:547 | the handler becomes a `changed` listener of the value, and the value, the reference and the document are left alone, so `Occupies` is kept |
| Conditional.CondRenderer.Announce | the-platform/the-platform.js:552-553 | `rendered` is set and one `rendered` event goes out |
| Conditional.CondRenderer.Attach | the-platform/the-platform.js:548-551 | the element and its parent are taken and `attached` is set before the handler; a missing element throws; the placeholder only takes the element's slot when the value is falsy; `Occupies` holds afterwards |
| Conditional.CondRenderer.Mount | the-platform/the-platform.js:548-553 | the attachment and then, only when it threw nothing, `rendered` set and one `rendered` event; `Occupies` holds afterwards |
| Conditional.CondRenderer.Handler | the-platform/the-platform.js:556-568 | the handler succeeds exactly when `attached` already agrees with the value or the needed swap is possible; on success `attached` equals the value's truthiness, it hides by swapping in the placeholder and shows by swapping back; on failure nothing changes; under `Occupies` it throws only when there is no parent, and `Occupies` is kept |
| Conditional.CondRenderer.Replace | the-platform/the-platform.js:561-565 | `replaceChild` puts the new node in the old node's slot |
| Conditional.CondRenderer.Destroy | the-platform/the-platform.js:542-544 | the handler is unsubscribed, and no later `changed` calls it |
| Links.ReflectSpec | the-platform/the-platform.js:308-317 | the handler writes the value to exactly one place: the attribute when the attribute name is truthy, else the field. No other node, attribute or field changes, and writing the same value again changes nothing |
| Links.ReflectLatest | the-platform/the-platform.js:308-317 | two writes in a row leave what the second one wrote |
| Links.DownLink.constructor | the-platform/the-platform.js:287-301 | the link keeps its property, its reference and its attribute or field names |
| Links.DownLink.Start | the-platform/the-platform.js:300 | `reference.onReady(#init)`: `#init` runs now when the reference is ready, or else is queued once. The reference's `ready` history never changes, and a ready reference keeps its listeners. |
| Links.DownLink.Init | the-platform/the-platform.js:303-306 | the handler runs before the subscription, so when the handler throws (no element) the link stays unsubscribed and the document is unchanged |
| Links.DownLink.Handler | the-platform/the-platform.js:308-317 | the current value is written to the element's attribute or field; without an element it throws and nothing changes |
| Links.UpLink.constructor | the-platform/the-platform.js:326-337 | the link keeps its reference, event name, value getter and property, and has no listener |
| Links.UpLink.Start | the-platform/the-platform.js:336 | `reference.onReady(#init)`: `#init` runs now when the reference is ready, or else is queued once. The reference's `ready` history never changes, and a ready reference keeps its listeners. |
| Links.UpLink.Init | the-platform/the-platform.js:339-340 | the element gets the listener for the configured event, and no other node changes; without an element it throws and nothing changes |
| Links.UpLink.OnEvent | the-platform/the-platform.js:340-349 | the property is set to the getter's value first, with one `changed` event; then one `triggered` event carrying the same value goes out |
| Links.TwoWayLink.constructor | the-platform/the-platform.js:354-389 | the down link is built, then the up link, and the relay is the up link's only `triggered` listener |
| Links.TwoWayLink.Relay | the-platform/the-platform.js:379-387 | the relay dispatches one `up-link-triggered` event carrying the value it received |
| Links.RelayRunsOnEveryTrigger | the-platform/the-platform.js:379-387 | every `triggered` of the up link calls the relay exactly once, and the relay stays subscribed |
| Lists.Partition | the-platform/the-platform.js:457-459 | the entries to update and to remove make up `#prev` in order, the updated positions and the values to add make up the array in order, and no render both removes and adds |
| Lists.DetachAllKeeps | the-platform/the-platform.js:462-464 | removing nodes keeps every node in the document and never gives a detached node a parent |
| Lists.DetachAllDetaches | the-platform/the-platform.js:462-464 | when every removal succeeds, every removed node is detached afterwards |
| Lists.RemoveAllKeeps | the-platform/the-platform.js:461-466 | the removal phase keeps every node, never re-attaches a detached one, and destroys at most one item renderer per entry |
| Lists.RemoveAllDetaches | the-platform/the-platform.js:461-466 | a removal phase that throws nothing destroys every entry's item renderer and leaves every node of every entry detached |
| Lists.RemoveAllCount | the-platform/the-platform.js:461-466 | a removal phase that throws nothing destroys exactly one item renderer per removed entry |
| Lists.RemovingDetachedFails | the-platform/the-platform.js:461-466 | an entry whose first node is already detached makes the removal phase throw, at that entry or before it; neither its item renderer nor any later one is destroyed |
| Lists.SecondShrinkFails | the-platform/the-platform.js:457-466 | because `#prev` is never truncated, after a successful shrink to `m` a shrink to any `k < m` throws when it reaches an already removed entry, and it destroys fewer item renderers than it should |
| Lists.StaleGrowth | the-platform/the-platform.js:457-471 | after a shrink, an array no longer than `#prev` builds nothing new; it updates in place every position below its length, including removed entries whose nodes stay detached |
| Lists.AppliedStep | the-platform/the-platform.js:468-471 | setting one more position extends the update phase by one step |
| Lists.GrownStep | the-platform/the-platform.js:473-482 | appending one more template clone to the root extends how the root grew, in order, with fresh nodes only |
| Lists.DetachNodes | the-platform/the-platform.js:462-464 | the nodes of one entry are removed from the root exactly as the specification of removal says, including where it throws |
| Lists.RemoveItems | the-platform/the-platform.js:461-466 | the removal loop gives the document, destroy count and outcome that the specification of the removal phase gives |
| Lists.ReconciledAll | the-platform/the-platform.js:454-483 | a render that got past the removal phase is the composition of its three phases |
| Lists.ReconciledSpec | the-platform/the-platform.js:454-483 | after a render that threw nothing, every entry at or past the new length lost its item renderer and the others did not; entries below both lengths hold their array value with one more `changed` event while the rest keep their state; with a root element, one new entry per value past the old length was built, holding that value and nothing else |
| Lists.ListRenderer.constructor | the-platform/the-platform.js:427-440 | a new renderer is unrendered, `#prev` is empty, and there is no listener |
| Lists.ListRenderer.Start | the-platform/the-platform.js:439 | `rootRef.onReady(#init)`: `#init` runs now when the reference is ready, or else is queued once. The reference's `ready` history never changes, and a ready reference keeps its listeners. |
| Lists.ListRenderer.UpdateOne | the-platform/the-platform.js:469-470 | one `set` on one entry's property changes that entry's state by one `SetStep` and no other entry's |
| Lists.ListRenderer.UpdateItems | the-platform/the-platform.js:468-471 | the update loop leaves the entries' states as `Applied` says, and calls the `changed` listeners dispatch by dispatch, in order |
| Lists.ListRenderer.AddOne | the-platform/the-platform.js:474-481 | one add step appends a fresh template clone to the root, pushes one entry with those nodes and a new property holding the value, and changes no other node; without a root element it throws with nothing changed |
| Lists.ListRenderer.AppendTemplate | the-platform/the-platform.js:474-478 | the entry's nodes are exactly the root's children past the count taken before the append, and they are fresh nodes of the template's kinds |
| Lists.ListRenderer.Push | the-platform/the-platform.js:479-481 | `#prev` grows by exactly one entry with those nodes and a fresh property holding the value (see the item renderer line under Left out) |
| Lists.ListRenderer.AddNext | the-platform/the-platform.js:473-482 | one add step keeps the add phase's bookkeeping: entries, their initial states and the root's growth |
| Lists.ListRenderer.AddItems | the-platform/the-platform.js:473-482 | the add loop pushes one entry per value, in order, each with a fresh clone under the root; it throws at the first value when there is no root element |
| Lists.ListRenderer.RemovePhase | the-platform/the-platform.js:461-466 | the removal phase leaves the document and destroy count that `RemoveAll` gives, touching no entry's state and not `#prev` |
| Lists.ListRenderer.UpdateAndAdd | the-platform/the-platform.js:468-482 | the update phase and then the add phase: the entries' states become `Applied`, the listeners called are `Notified`, and the new entries follow the old ones |
| Lists.ListRenderer.Render | the-platform/the-platform.js:454-483 | `#render` does what `Reconciled` says: nothing for a value without entries, nothing after a throwing removal, and otherwise removal, update and growth by index against the old `#prev`, which is only appended to |
| Lists.ListRenderer.Init | the-platform/the-platform.js:446-452 | renders first; when that throws the renderer stays unsubscribed and unannounced; otherwise it subscribes `#render` and announces `rendered` once |
| Lists.ListRenderer.Subscribe | the-platform/the-platform.js:448 | `#render` becomes a `changed` listener of the list, and no entry's state changes |
| Lists.ListRenderer.Announce | the-platform/the-platform.js:450-451 | `rendered` is set and one `rendered` event goes out, and no entry's state changes |
| Lists.ListRenderer.Destroy | the-platform/the-platform.js:442-444 | `#render` is unsubscribed and no later `changed` calls it; the item renderers are not destroyed |
| DevServiceWorker.FindFrom | serp-page/dev-sw.js:15-17 | the result is the first position at or after the start where the pattern occurs, or none when it occurs nowhere there |
| DevServiceWorker.ReplacePrefix | serp-page/dev-sw.js:14-17 | when the URL starts with `from`, `replace(from, to)` swaps exactly that prefix for `to` with its `$` patterns expanded; a `to` without `$` goes in literally |
| DevServiceWorker.ExpandPlain | serp-page/dev-sw.js:15-17 | a replacement string without `$` is inserted as it is, whatever was matched |
| DevServiceWorker.FirstMatch | serp-page/dev-sw.js:13-14 | the result is the index of the first entry whose `from` starts the URL; with none, no entry matches |
| DevServiceWorker.RespondSpec | serp-page/dev-sw.js:12-24 | the original request goes out exactly when no entry matches; otherwise the first matching entry's expanded `to` followed by the rest of the URL goes out, which is `to` itself when it holds no `$` |
| DevServiceWorker.FirstMatchWins | serp-page/dev-sw.js:18-19 | entries after a matching one are never consulted: appending entries to the table changes nothing |
| DevServiceWorker.FirstMatchIs | serp-page/dev-sw.js:13-14 | an index that matches with no match before it is the first match |
| DevServiceWorker.MappingsSeparated | serp-page/dev-sw.js:1-10 | every `from` of the table is an `https` URL and every `to` an `http:` one without `$` patterns |
| DevServiceWorker.MappingsPlain | serp-page/dev-sw.js:1-10 | neither `to` of the table holds a `$` |
| DevServiceWorker.RewrittenMatchesNothing | serp-page/dev-sw.js:12-24 | in such a table, a rewritten URL matches no entry |
| DevServiceWorker.FetchedIdempotent | serp-page/dev-sw.js:1-24 | rewriting with the worker's table is idempotent: a request sent out again goes out with the same URL |
| DevServiceWorker.OnFetch | serp-page/dev-sw.js:12-24 | the handler calls `respondWith` exactly once, with what `Respond` gives: the loop returns at the first match and only falls through to the original request when none matches |

## Left out

- Callback delivery: a dispatch returns the callbacks it calls, in order, and the model stops there. Running a delivered callback is a separate call of the method it names (for example `Handler`, `Init`, `Update` or `#render`), made by the caller. Re-entrant dispatch is not modelled.
- The constructors' closing `onReady(this.#init)` is a separate `Start` method. When it says the reference is ready, the caller runs `Init` at once, just as the source does synchronously.
- The search for descendants uses its depth bound `|nodes|` as fuel. In a well-formed document that bound is never reached, but the model does not prove that.
- `String(...)` conversion for `textContent`, attributes and fields is not modelled: the value is stored as it is.
- Event details are single values. `CustomEvent` and other event objects are not modelled, and `valueGetter` receives what the DOM event carries.
- The network is not modelled: the fetch handler returns what it passes to `respondWith`, and `fetch` and `new Request` are not modelled.
- `Registry` and `Component`, the templates and the styles are not modelled, because they are outside the reactive core. `createDOM()` is a clone of a given markup forest.
- `createModule`'s `async`/`await` is not modelled: a call records whether it starts the initialiser.
- `attachShadow` refusal is an abstract predicate (`CanAttach`), not the full HTML rule set.
- The item renderer the list renderer calls is not modelled: only how many item renderers are destroyed is recorded. An item renderer is identified by its entry's position in `#prev`.
- `ClonedFrom` states only the kinds of a clone's top-level nodes, not their whole subtree.
- The ComputedProperty constructor's first `#update` call is inlined into the constructor.
- `replaceChild` is modelled only for the node kinds and moves the conditional renderer performs. The model's `ReplaceChild` requires the incoming node to be detached, so a move of an attached node is not captured. `Occupies` assumes that no code outside the renderer moves the element or the placeholder between handler runs.
- Conditional.CondRenderer.Init: requires the placeholder to be detached and `Occupies` to hold, as the constructor leaves them, because `#init` runs once, as the `onReady` callback.
- Lists.ListRenderer.AddOne: the item renderer runs before the entry is pushed; the model assumes it registers nothing on the new property and touches no node, so the claim that the property has no listener rests on that.
- Lists.ListRenderer.Push: the same assumption about the item renderer, for the fresh property it records.
- Lists.ReconciledSpec: the same assumption about the item renderer, for the new entries past the old length.
- Lists.Items: JavaScript strings count UTF-16 code units and `for…of` walks code points; the model's strings are sequences of Unicode scalar values, so a string with characters outside the Basic Multilingual Plane has different lengths and entries.
- TextContent.ShowTextSpec: the single text node that `textContent` creates stands as the element's `text` field. Its identity, a new node on every assignment, is not modelled, so "showing it again changes nothing" holds up to that identity.
- Refs.ShadowDomRenderer.Init: its contract speaks of the reference's element taken before the call, because the reference's state is not changed by `#init`.
- UpLink's listener is one `Bound` callback per link, standing for the arrow function the source creates in `#init`. The DownLink's attribute and field names are modelled as a `Slot`.
- Lists.ListRenderer.Destroy: it does not destroy the item renderers, as in the source.
- Lists.ListRenderer.AddItems: does not state the freshness of every new property; only `AddOne` and `Push` state it for the entry they push.
- Lists.DetachNodes and Lists.RemoveItems are module-level methods that take the reference and the document, instead of methods of the renderer.
- JavaScript numbers are modelled as unbounded integers. Floating point is not modelled.
