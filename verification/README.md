# Media self-destruct injector: a Dafny model of its decision logic

The system is a browser extension that hooks a web chat client's own
JavaScript primitives. When an outgoing media attachment passes through one
of the page-level hooks, the extension sets its time-to-live field
`ttl_seconds` to 10 and sets the bit of value 2 in its `flags` field. The
socket-level hook sets only `media.ttl_seconds`. This project models the pure
decision logic behind those hooks and proves properties of it:

- **inject.js** has three hook bodies. The `Object.assign` hook, the
  `Object.defineProperty` hook (a trigger plus a deferred callback) and the
  `Promise.prototype.then` hook each decide whether a dynamic object is a
  media descriptor, and rewrite it if so.
- **inject.js** also has `tryPatch`, the retry scheduler. It re-installs the
  hooks on a 100 ms timer until `patchAttempts` reaches `MAX_ATTEMPTS = 150`.
  A `DOMContentLoaded` listener makes one extra call on the same counter.
- **content.js** wraps `WebSocket.prototype.send`. It decodes the payload,
  looks for the `"media":` marker, parses it, adds `media.ttl_seconds = 10`
  when that field is falsy, and forwards exactly one payload.

JavaScript values are the datatype `JsValue.Value`. It has explicit
truthiness (`Truthy`), property access and `includes`. Objects are maps from
keys to values. The rules are pure functions on those values. `TextDecoder`,
`JSON.parse` and `JSON.stringify` are foreign, so they enter as function
parameters (`SocketSend.Foreign`). The original `send`, `defineProperty` and
the host's promise continuations are also parameters. The scheduler is a
record state machine driven by discrete `Tick` and `DomReady` events.

Modules: `Wrappers` (Option), `Int32` (ToInt32 and `x | 2`), `JsValue`,
`MediaRules` (the three rule bodies), `InjectHooks` (the assign and
defineProperty wrappers), `ThenHook` (promise reactions), `RetryScheduler`,
`SocketSend`.

Details of the code's behaviour:

- **Time-to-live test.** Every hook tests whether `ttl_seconds` is falsy,
  not whether it is absent. A `ttl_seconds` of `0` is therefore overwritten.
- **Default `flags`.** The deferred defineProperty callback writes
  `flags = 2` whenever `flags` is not a number, not only when it is absent.
- **Rewritten binary payloads.** An ArrayBuffer payload that is rewritten
  goes out as a string. It is not re-encoded.
- **Install count.** There are exactly 150 installs without the readiness
  listener. When the listener fires there are exactly 151. If it
  fires early, its call arms a second timer chain that runs on the shared
  counter.
- **`then` transparency.** The `then` wrapper is not transparent for every
  non-matching value; see Findings.
- **Array `_` in `then`.** The `then` inspection calls `includes` on any
  truthy `_`, so an array `_` holding `"inputMedia"` as an element is
  rewritten as well.

## Model

| member | source | states |
|---|---|---|
| Int32.ToInt32 | inject.js:22 | the operand of the bitwise OR becomes the unique signed 32-bit integer congruent to it modulo 2^32 |
| Int32.ToInt32Unique | inject.js:22 | range and congruence determine ToInt32 completely |
| Int32.OrTwo | inject.js:22 | OR-ing 2 into `x` gives a signed 32-bit integer and always has the bit of value 2 set |
| Int32.OrTwoBitwise | inject.js:22 | OR-ing 2 into `x` sets bit 1 and leaves each of the other 31 bits of `x` unchanged |
| Int32.OrTwoIdempotent | inject.js:22 | ORing 2 in twice equals doing it once |
| JsValue.ContainsIff | inject.js:19 | `includes` holds exactly when the needle occurs at some index of the string |
| JsValue.ContainsNonEmpty | inject.js:18-19 | a string that contains a non-empty marker is truthy, so the separate truthiness tests before `includes` add nothing |
| JsValue.ContainsPrefix | inject.js:62 | a string that contains a needle contains each prefix of it |
| JsValue.Includes | inject.js:62 | `x.includes(m)` searches a string or an array, and throws a TypeError for any other receiver |
| JsValue.ToInt32Of | inject.js:22 | the OR with 2 reads a numeric `flags` modulo 2^32, `true` as 1, a falsy `flags` as 0, and a string, array or object as 0 |
| JsValue.SetProp | content.js:36 | assigning a property to an object updates only that key; a write to a boolean, number or string is dropped, and a non-index, non-`length` key written to an array leaves the value as JSON sees it; the receiver is never null or undefined, where the write would throw |
| MediaRules.InjectTtl | inject.js:21-22 | the injection sets `ttl_seconds` to 10 and `flags` to the old `flags` (0 if falsy) read as a 32-bit integer with the bit of value 2 set; it adds only those two keys and keeps every other key and value |
| MediaRules.InjectTtlKeepsFlagBits | inject.js:22 | the new `flags` keeps every bit of the old one and adds the bit of value 2 |
| MediaRules.AssignRule | inject.js:18-26 | a matching object gets exactly the injection of InjectTtl (`ttl_seconds == 10`, `flags` with the bit of value 2 set) with nothing else changed; a non-matching object is returned as is |
| MediaRules.AssignMatchesIff | inject.js:18-20 | the assign hook fires exactly when `_` is a string containing `inputMediaUploaded`, `file` is truthy and `ttl_seconds` is falsy |
| MediaRules.DefineTriggersIff | inject.js:34-37 | the defineProperty hook schedules its callback exactly when the target is truthy, the key is `_` or `flags`, and the descriptor's `value` is a string containing `inputMedia` |
| MediaRules.DeferredFlags | inject.js:43-47 | a numeric `flags` keeps all its other bits and gains the bit of value 2; any other `flags` becomes 2 |
| MediaRules.DeferredInject | inject.js:40-50 | the callback acts only on an object with a truthy `file` and a falsy `ttl_seconds`; it sets `ttl_seconds` to 10 and `flags` to the deferred flag value (the old number with the bit of value 2 set, else 2) and changes no other key |
| MediaRules.DeferredAgreesWithInject | inject.js:41-47 | the deferred update equals the assign/then update whenever `flags` is a number or absent |
| MediaRules.DeferredDiffersOnBooleanFlags | inject.js:43-47 | for `flags == true` the two updates differ: 3 in the assign and then hooks, and 2 in the deferred callback |
| MediaRules.ThenInspectAsWritten | inject.js:61-67 | the `then` inspection as written throws exactly when the value is an object whose `_` is truthy and neither a string nor an array; it rewrites exactly when `_` is truthy and `includes` finds `inputMedia` (as a substring of a string or an element of an array) on an object with a file and no truthy time-to-live, and a rewrite equals InjectTtl |
| MediaRules.ArrayTagRewrittenOnlyAsWritten | inject.js:61-62 | an object whose `_` is an array holding `"inputMedia"` is rewritten by the inspection as written but passed through by ThenRule |
| MediaRules.ThenRule | inject.js:61-67 | a matching object gets exactly the injection of InjectTtl, with only `ttl_seconds` and `flags` added or changed; any other value passes through unchanged |
| MediaRules.ThenInspectAgrees | inject.js:61-62 | when `_` is a string or falsy, the inspection as written never throws and equals ThenRule |
| MediaRules.AssignMatchImpliesThenMatch | inject.js:19-22 | every object the assign hook rewrites is rewritten identically by the `then` hook |
| MediaRules.TruthyTtlUntouched | inject.js:20-22 | no rule touches an object whose `ttl_seconds` is already truthy |
| MediaRules.RulesIdempotent | inject.js:18-67 | applying any of the three rules twice equals applying it once, and the `then` inspection as written, when it does not throw, is idempotent too |
| InjectHooks.Merge | inject.js:15 | the object `origAssign` returns has the keys of the target and all sources; each key takes its value from the last source that defines it, or from the target when no source does |
| InjectHooks.MergeStep | inject.js:15 | copying the last source over the merge of the other sources gives the merge of all of them |
| InjectHooks.AssignHook | inject.js:14-29 | the wrapper returns the merged object, injected exactly as InjectTtl does when it matches and unchanged otherwise; only `ttl_seconds` and `flags` can change |
| InjectHooks.AssignLayersCollapse | inject.js:13-15 | any number of stacked installs of the assign hook behaves like one |
| InjectHooks.DefinePropertyHook | inject.js:33-55 | the original `defineProperty` always gets the unmodified `(obj, prop, descriptor)` and its result is returned; a callback on `obj` is scheduled exactly on the trigger |
| InjectHooks.RunDeferredCollapse | inject.js:40-50 | the callbacks of stacked installs, run back to back, have the effect of one |
| ThenHook.Call | inject.js:68 | calling a value that is not a function rejects with a TypeError |
| ThenHook.ThenHookAsWritten | inject.js:59-71 | `onRejected` passes unchanged; a falsy `onFulfilled` passes as is; any truthy `onFulfilled` is wrapped |
| ThenHook.ThenHook | inject.js:59-71 | corrected wrapper: `onRejected` passes unchanged; a non-callable `onFulfilled` passes as is; a callable one is wrapped |
| ThenHook.ThenHookTransparent | inject.js:60-70 | the host continuation receives the rule's output; a value the predicate rejects reaches it unmodified; the rejection handler is untouched |
| ThenHook.AsWrittenAgreesOnStringTags | inject.js:60-70 | for a callable handler and a string or falsy `_`, the wrapper as written settles like the corrected one |
| ThenHook.NonCallableHandlerRejected | inject.js:60-68 | the wrapper as written turns `then(1)` from a pass-through into a rejection |
| ThenHook.NonStringTagRejected | inject.js:61-62 | with the wrapper as written, a value whose `_` is the number 1 rejects instead of reaching the continuation |
| ThenHook.ThenLayersCollapse | inject.js:58-70 | any number of stacked installs of the corrected `then` hook behaves like one |
| ThenHook.ThenLayersAsWrittenCollapse | inject.js:58-70 | any number of stacked installs of the `then` hook as written settles a reaction like a single install |
| RetryScheduler.TryPatch | inject.js:75-77 | each install adds one to the counter (inject.js:10) and arms a new timer exactly when the counter is still below 150 |
| RetryScheduler.Start | inject.js:81-85 | the script starts with one install and one pending timer, and listens for readiness only if the document is loading |
| RetryScheduler.Step | inject.js:75-77 | an event occurs only when a timer or the listener waits for it, and each event performs one install |
| RetryScheduler.StepPaysOne | inject.js:75-77 | each event performs exactly one of the installs still owed |
| RetryScheduler.RunBound | inject.js:6-10 | every run has at most 150 installs, plus one if the listener was registered; a run with nothing pending has exactly that many |
| RetryScheduler.ExhaustedStopsRearming | inject.js:75-77 | once the counter has reached 150, a timer firing arms no new timer |
| RetryScheduler.RunToCompletion | inject.js:75-85 | the schedule, run until nothing is pending, installs the hooks 150 times, or 151 if the document was loading, whenever readiness arrives |
| SocketSend.PayloadText | content.js:23-28 | a string is inspected as is, an ArrayBuffer through the decoder, and no other payload yields text |
| SocketSend.WithTtl | content.js:34-36 | behind the `obj.media &&` guard, `obj.media.ttl_seconds = 10` gives an object `media` the key `ttl_seconds` with value 10 and leaves the message unchanged for any other `media`; no other entry changes, no key is added, and a JSON message stays JSON |
| SocketSend.Forwarded | content.js:19-43 | the forwarded payload is either the original, or a string produced from a marker-carrying text |
| SocketSend.SendHook | content.js:43 | every call forwards exactly one payload, the one Forwarded computes, and returns the original `send`'s result |
| SocketSend.PassThrough | content.js:23-30 | a payload that is neither a string nor an ArrayBuffer, or whose text lacks `"media":`, is forwarded unchanged |
| SocketSend.ParseFailureForwardsOriginal | content.js:31-40 | when parsing fails, the error is swallowed and the original payload is forwarded |
| SocketSend.Rewrite | content.js:34-37 | when `media` is truthy and its `ttl_seconds` is falsy, the message is re-serialised and sent as a string: with `media.ttl_seconds = 10` and nothing else changed when `media` is an object, and exactly as parsed when `media` is a string, number, boolean or array |
| SocketSend.NoRewriteWithoutNeed | content.js:34 | an already truthy `media.ttl_seconds`, or a falsy top-level `media`, forwards the original |
| SocketSend.RewriteIdempotent | content.js:30-37 | sending the forwarded payload again forwards it unchanged, given that the parser yields only JSON values and reads back what the serialiser writes for JSON objects |
| SocketSend.MediaExample | content.js:30-37 | `{"media":{"file":"X"}}` goes out as `{"media":{"file":"X","ttl_seconds":10}}` |

## Left out

- Adding the `<script>` element to the page (content.js:3-4, 47): DOM input/output.
- The `XMLHttpRequest.prototype.open` hook (content.js:7-15): its observer has an empty body, so it has no behaviour to model.
- All `console.log` calls: they only report progress.
- Object identity, prototype mutation and `this` binding. The model works on values, so "returns the same target object" becomes "returns the merged value, rewritten".
- Timing: the 100 ms delay, the one-turn deferral and event-loop order are discrete events, not time.
- `TextDecoder`, `JSON.parse` and `JSON.stringify` are foreign functions. Decoding is total: a detached buffer, which makes the outer `try` of content.js:20-42 forward the original, is not modelled.
- Numbers are integers: there is no NaN, no fraction and no negative zero.
- JsValue.ToInt32Of: reads every string, array and object as 0, as NaN converts. A numeric string such as "5" or a one-element array such as [5] converts to its number in JavaScript, and that case is not modelled.
- Inherited properties: reads see only an object's own fields. A descriptor or message whose `_`, `file`, `ttl_seconds`, `flags` or `media` comes from a prototype other than the built-in ones is not modelled.
- Property attributes are not modelled: every property is a writable data property. No getters or setters, no frozen objects and no symbol keys. Under strict mode, inject.js's writes to a non-writable `flags` created by `defineProperty` would throw.
- JsValue.SetProp: writes of an index key (such as "0") or of `length` to an array, which replace elements or truncate the array, are not modelled. The only write in the model is to `ttl_seconds`. Decimal keys whose value is 2^32 - 1 or more are ruled out as well, although JavaScript treats them as plain properties.
- InjectHooks.Merge: `Object.assign` sources are plain objects. Primitive sources, which copy indexed characters or are skipped, are not modelled.
- MediaRules.DeferredInject: takes the target's state when the timer fires; host writes between the triggering call and the callback are outside the model.
- InjectHooks.RunDeferredCollapse: assumes the callbacks of stacked installs run back to back, with no host write between them.
- ThenHook.OnFulfilled: a handler's return value settles the promise directly. Thenable adoption and other promise machinery are not modelled.
- SocketSend.SendHook: models only the first argument of `send`. Any further arguments are forwarded unchanged by `arguments`.
- SocketSend.RewriteIdempotent: assumes `JSON.parse` yields only JSON values (no `undefined` anywhere) and reads back what `JSON.stringify` writes for such objects. The serialiser drops `undefined` fields, so the premise is stated for JSON values only.
- Object key order: objects are maps, so insertion order is lost. `JSON.stringify` writes keys in insertion order, so the exact bytes of a rewritten payload (as in SocketSend.MediaExample) depend on the foreign serialiser.
- JsValue.Value has no function or symbol variant: a function-valued property or argument is outside the values the rules inspect.
- InjectHooks.Merge: the target is always an object. `Object.assign(null, ...)` and `Object.assign(undefined, ...)`, which throw a TypeError, are not modelled.

## Findings

| source | as written | input that shows it | evidently intended | confidence | as-written member | corrected member |
|---|---|---|---|---|---|---|
| inject.js:60-68 | any truthy `onFulfilled` is wrapped, and the wrapper calls `onFulfilled.call` | `promise.then(1)`: the native `then` ignores the non-function and passes the value through, but the wrapper throws a TypeError and the returned promise rejects | wrap only a callable `onFulfilled`, so a non-function keeps its native meaning | not executed; high | ThenHook.NonCallableHandlerRejected | ThenHook.ThenHookTransparent |
| inject.js:61-62 | `value._.includes(...)` is called after only a truthiness test on `_` | a resolved value `{_: 1}`: `includes` is not a method of a number, so the wrapper throws, the host's continuation never runs and the promise rejects | test that `_` is a string first, as the assign hook does at inject.js:18, so that non-matching values pass through; the corrected rule then also stops rewriting an array `_` holding `"inputMedia"` (MediaRules.ArrayTagRewrittenOnlyAsWritten) | not executed; high | ThenHook.NonStringTagRejected | ThenHook.ThenHookTransparent |
