# EventEmitter in Dafny

A model of the two versions of the EventEmitter library, an in-process
publish/subscribe registry. Each version keeps a dictionary from event names
to ordered lists of listeners.

- **`event-emitter.js`** is the current version. It has `listeners`, `on`
  (single, hash and `once` forms), `off` (clear all, clear by namespace
  match, remove one listener) and `emit`, which calls each listener with
  `(sender, args)`. Its dotted-namespace rule in `eachEventMatching` decides
  which keys a name addresses.
- **`EventEmitter.js`** is the legacy version. It has the constructor,
  `listeners`, `on` (single and hash), `once` (single and hash), `off`
  (three shapes) and `emit`, which forwards variadic arguments. It has no
  namespaces and no validation.

Listeners are a type parameter `L` with equality: they are opaque
identities. A stored `undefined` listener is `None`. A once-wrapper is a
value of its own (`Once(id, …)` / `OneTime(id, …)`), so it is never equal
to the listener it wraps. Each registry carries an invariant, `Valid()`:
every stored wrapper has an identity below the next one to be made, and is
stored exactly once, in one list, with no other wrapper sharing its
identity. Every operation keeps this invariant. Listener bodies are
abstract. The only effect of a call that is modelled is a once-wrapper
removing itself. `emit` returns the trace of invocations it makes.

Modules:

- `Wrappers` holds `Option` and `Result`.
- `Strings` models `String.prototype.indexOf` and the tests written with it.
- `Arrays` models `Array.prototype.indexOf` and `splice(i, 1)` on listener
  lists.
- `Namespaces` holds the per-key match rule of `eachEventMatching` and the
  key selection in enumeration order.
- `EmitterSpec` holds the registry of `event-emitter.js` as a value, with
  functions for every operation and the lemmas about them. The registry is
  the lists, the `for..in` enumeration order of the keys, and the count of
  once-wrappers made so far.
- `Emitter` is the `EventEmitter` class of `event-emitter.js`. Its fields
  are updated in place. Its methods (loops included) are proved against
  `EmitterSpec`.
- `LegacySpec` and `Legacy` are the same pair for `EventEmitter.js`.

Where the code does something other than what its comments or its tests
describe, the model follows the code:

- The event name `''` is accepted by `require` and by
  `disallowBareNamespaces`. `listeners('')` then returns the whole
  dictionary, so `on('', f)` and `off('', f)` throw a TypeError. In the hash
  form of `on`, the pairs before the empty name stay added.
- For the name `''`, the match rule of `eachEventMatching` selects the keys
  that begin with a dot (`'' + '.'` is `'.'`). Listeners can be added under
  such keys only through the hash form of `on`, which checks no name;
  `listeners('.x')` and `off('.x', f)` create such a key with an empty list.
- `emit` walks the live list with its length fixed on entry. The model
  therefore exhibits the findings below.

## Model

| member | source | states |
|---|---|---|
| Strings.IndexOfIsFirst | event-emitter.js:99-100 | `s.indexOf(t)` is -1 exactly when `t` occurs nowhere in `s`; otherwise `t` occurs there and at no earlier index |
| Strings.IndexOfZeroIffPrefix | event-emitter.js:115 | `s.indexOf(t) === 0` holds exactly when `t` is a prefix of `s` |
| Strings.IndexOfChar | event-emitter.js:37 | for a one-character string, `indexOf` is -1 exactly when the character is absent, and 0 exactly when it comes first |
| Strings.IndexOf | event-emitter.js:99-100 | `String.prototype.indexOf`: the first index at which `t` occurs, searching from 0, or -1; never below -1 (its meaning is stated by `Strings.IndexOfIsFirst`) |
| Arrays.IndexOfElem | event-emitter.js:288 | `arr.indexOf(x)` is -1 exactly when `x` is absent; otherwise it is an index holding `x` with no `x` before it |
| Arrays.RemoveFirst | event-emitter.js:287-291 | `indexOf` then `splice(index, 1)` when the index is not -1 (also EventEmitter.js:91-95); what it removes is stated by `Arrays.RemoveFirstCounts`, `Arrays.RemoveFirstSplits` and `Arrays.RemoveFirstAt` |
| Arrays.RemoveFirstCounts | event-emitter.js:287-291 | removing a listener that is absent changes nothing; otherwise the list is one shorter and exactly one occurrence of `x` is gone (multiset difference) |
| Arrays.RemoveFirstSplits | event-emitter.js:288-290 | only the first occurrence goes; what precedes and what follows it stay in order |
| Arrays.RemoveFirstHead | event-emitter.js:288-290 | removing the head element leaves exactly the rest |
| Arrays.RemoveFirstAt | event-emitter.js:287-291 | an element stored only once is removed from its own index, and nothing else moves |
| Arrays.RemoveFirstShrinks | event-emitter.js:287-291 | removing adds nothing: every element is left at most as often as before |
| Namespaces.IsBareNamespace | event-emitter.js:36-37 | the `indexOf('.') === 0` test holds exactly when the name starts with a dot |
| Namespaces.IsNamespacedName | event-emitter.js:99-111 | the name is namespaced exactly when it is non-empty, does not start with a dot, and contains one |
| Namespaces.Selects | event-emitter.js:99-118 | the per-key test of `eachEventMatching` in its three branches: substring for a bare namespace, equality for a namespaced name, the name or a dotted child otherwise (stated branch by branch by the three lemmas below) |
| Namespaces.BareNamespaceSelectsContaining | event-emitter.js:100-107 | a bare `.ns` name selects exactly the keys that contain it as a substring |
| Namespaces.NamespacedNameSelectsItself | event-emitter.js:109-111 | a name with a later dot selects exactly its own key |
| Namespaces.PlainNameSelectsFamily | event-emitter.js:113-118 | a name without a dot selects itself and exactly the keys that begin with the name and a dot |
| Namespaces.SelectKeys | event-emitter.js:103-118 | the keys handed to the action are exactly the enumerated keys the rule selects, each once, in enumeration order |
| Namespaces.NamespacedNameSelectsOneKey | event-emitter.js:109-111 | among distinct keys that include it, a namespaced name selects exactly `[name]` |
| EmitterSpec.Require | event-emitter.js:31-35 | only `undefined` is refused, and it is refused with the given message |
| EmitterSpec.DisallowBareNamespaces | event-emitter.js:36-40 | a string is refused exactly when it starts with a dot, with the bare-namespace message |
| EmitterSpec.CheckEventName | event-emitter.js:229-230 | a name passes exactly when it is defined and does not start with a dot; `undefined` fails with "eventName is required", a bare namespace with its own message |
| EmitterSpec.Touch | event-emitter.js:182-190 | `listeners(name)` for a non-empty name: an absent name gets an empty list, enumerated last (stated by `EmitterSpec.TouchAddsEmpty`) |
| EmitterSpec.TouchAddsEmpty | event-emitter.js:182-190 | `listeners(name)` returns the stored list or a new empty one enumerated last; no other list and no once count changes; keys stay enumerated once each |
| EmitterSpec.Add | event-emitter.js:232-242 | `addListener` for a non-empty name (the empty name throws, see `Emitter.EventEmitter.AddListener`): `listeners(name).push(value)`, the value being a new once-wrapper when `once` is set (stated by `EmitterSpec.AddAppends` and `EmitterSpec.AddValid`) |
| EmitterSpec.AddValid | event-emitter.js:232-242 | adding keeps every key enumerated exactly once, and a new once-wrapper, whose identity is fresh, is stored exactly once |
| EmitterSpec.AddAppends | event-emitter.js:232-242 | `on(name, f)` appends exactly one value at the end of the name's list (a fresh once-wrapper with `once`), keeps every other list, and enumerates a new name last; in a valid registry the new wrapper's identity is stored under no key |
| EmitterSpec.AddAll | event-emitter.js:243-246 | `own(hash, addListener)` in property order, ending at the first empty name, where `listeners('')` makes the push throw; no key is lost |
| EmitterSpec.AddAllAfterPrefix | event-emitter.js:243-246 | once the first `n` pairs, none with an empty name, are added, adding the whole hash is adding the rest |
| EmitterSpec.AddAllValid | event-emitter.js:243-246 | the hash form keeps every key enumerated exactly once |
| EmitterSpec.AddAllAppendsEach | event-emitter.js:243-246 | the hash form appends each value at the end of its own name's list, once-wrappers taking consecutive identities in property order |
| EmitterSpec.AddAllKeepsOthers | event-emitter.js:243-246 | the hash form leaves the list of every name outside the hash as it was |
| EmitterSpec.AddAllAddsNames | event-emitter.js:58-64 | every name of a hash without an empty name becomes a key |
| EmitterSpec.Scope | event-emitter.js:109-111 | the first step of `eachEventMatching` keeps the registry well formed, every stored key and list, and the once count |
| EmitterSpec.Matching | event-emitter.js:98-121 | the keys `eachEventMatching` hands to its action, in enumeration order (stated by `EmitterSpec.MatchingSelects`) |
| EmitterSpec.MatchingSelects | event-emitter.js:98-121 | the action sees each key the rule selects, and only those, once each; a namespaced name sees exactly its own key |
| EmitterSpec.Unsubscribe | event-emitter.js:285-292 | `off(name, f)` keeps the registry well formed, wrapper invariant included |
| EmitterSpec.OnThenOffRestores | event-emitter.js:285-292 | adding a listener that was not in the list and then removing it gives back the list that `listeners(name)` returned |
| EmitterSpec.OffKeepsOnceWrappers | event-emitter.js:285-292 | `off(name, f)` leaves every once-wrapper around `f` in place, because it compares identities |
| EmitterSpec.OffCancelsOnce | event-emitter.js:285-292 | `on(name, f, {once: true})` appends a fresh wrapper `w`; `off(name, w)` with that wrapper read back from `listeners(name)` removes it and gives back the list `listeners(name)` returned before |
| EmitterSpec.ClearAll | event-emitter.js:275-279 | `off()` keeps the registry well formed, wrapper invariant included |
| EmitterSpec.ClearMatching | event-emitter.js:280-284 | `off(name)` keeps the registry well formed, wrapper invariant included |
| EmitterSpec.EmptiedMatching | event-emitter.js:280-284 | emptying exactly the lists of the keys handed to the action, and no others, is `off(name)` |
| EmitterSpec.ClearMatchingAt | event-emitter.js:280-284 | `off(name)` empties a key's list exactly when the action is handed that key; the other lists are untouched |
| EmitterSpec.RunLive | event-emitter.js:51-55 | `each` as written: indices up to the length on entry over the live list, a once-wrapper splicing itself out of that list, and a TypeError on calling `undefined` (stated by the lemmas below) |
| EmitterSpec.RunSnapshot | event-emitter.js:51-55 | the same loop over a copy taken on entry, removals going to the live list |
| EmitterSpec.DispatchKeys | event-emitter.js:340-342 | the action of `emit` over the selected keys in order, each list walked, the first TypeError ending it; no key is added or lost |
| EmitterSpec.EmitDispatch | event-emitter.js:327-344 | the synchronous path of `emit`: the walk over every key `eachEventMatching` hands over |
| EmitterSpec.Pending | event-emitter.js:332-335 | with `async`, every stored value of every matching key, in order, scheduled for later |
| EmitterSpec.DispatchShrinks | event-emitter.js:340-342 | a dispatch only takes entries out: each list afterwards is empty or a sub-multiset of the list before |
| EmitterSpec.OnceRemovesOnlyItself | event-emitter.js:234-238 | in a valid registry, a firing once-wrapper's `off` removes the wrapper from its own index and nothing else |
| EmitterSpec.RunLiveWithoutOnce | event-emitter.js:51-55 | a list without once-wrappers is called in registration order, each listener once, and is left unchanged |
| EmitterSpec.LoneOnceRemovesItself | event-emitter.js:234-238 | a lone once-listener is called once and leaves its list empty |
| EmitterSpec.OnceAtHeadSkipsAndThrows | event-emitter.js:51-55 | as written, after a once-wrapper at the head fires, the next listener is never called and the walk throws at the end |
| EmitterSpec.SnapshotRunsEveryListener | event-emitter.js:51-55 | a walk over a copy calls every listener once, in order, and leaves the list without its once-wrappers |
| EmitterSpec.DispatchWithoutOnce | event-emitter.js:340-342 | without once-wrappers, `emit` calls the selected keys' lists one after the other, each in registration order, and changes nothing |
| EmitterSpec.DispatchSnapshotCallsAll | event-emitter.js:340-342 | the corrected `emit` calls every listener of every selected key once, key after key, and removes exactly the once-wrappers |
| EmitterSpec.DispatchOneKey | event-emitter.js:340-342 | `emit` over a single key walks that key's list once |
| EmitterSpec.MatchingAlone | event-emitter.js:113-118 | a plain name with no namespaced child among the keys matches its own key alone |
| EmitterSpec.EmitAfterOffAllCallsNothing | event-emitter.js:275-279 | after `off()`, emitting any name calls nothing and does not throw |
| EmitterSpec.EmitAfterOffCallsNothing | event-emitter.js:280-284 | after `off(name)`, emitting the same name calls nothing and does not throw |
| EmitterSpec.OnceThenPlainEmitThrows | event-emitter.js:51-55 | as written, a once-listener followed by a plain one: `emit` calls only the first, keeps the second, and throws |
| EmitterSpec.OnceThenPlainEmitSnapshot | event-emitter.js:51-55 | corrected, the same registry has both listeners called, keeps the plain one, and does not throw |
| Emitter.Deliver | event-emitter.js:331-338 | each invoked listener receives `(emitter, args)`, in order |
| Emitter.EventEmitter.constructor | event-emitter.js:128 | a new emitter has no names and no lists |
| Emitter.EventEmitter.Listeners | event-emitter.js:182-190 | with no name or `''`, returns the dictionary and changes nothing; otherwise returns the name's list, creating it empty if absent |
| Emitter.EventEmitter.AddListener | event-emitter.js:232-242 | pushes the listener or a new once-wrapper onto `listeners(key)`; fails with nothing stored exactly when the key is `''` |
| Emitter.EventEmitter.On | event-emitter.js:228-253 | checks the name before any change, adds exactly one value, and returns the emitter |
| Emitter.EventEmitter.OnHash | event-emitter.js:243-246 | adds each pair in property order; fails exactly when some name is empty, after adding the pairs before it |
| Emitter.EventEmitter.EachEventMatching | event-emitter.js:98-121 | hands over the selected keys in enumeration order; a namespaced name is created through `listeners` |
| Emitter.EventEmitter.OffAll | event-emitter.js:275-279 | empties every list in place and keeps every key |
| Emitter.EventEmitter.OffMatching | event-emitter.js:280-284 | empties exactly the lists of the matching keys |
| Emitter.EventEmitter.OffListener | event-emitter.js:285-292 | removes the first stored value identical to the argument (a listener, or a once-wrapper read back from `listeners(name)`) from `listeners(name)`; with `''` it fails and changes nothing |
| Emitter.EventEmitter.Off | event-emitter.js:274-294 | picks among the three shapes by which arguments are `undefined`, the listener argument being any value as stored; returns the emitter unless it throws |
| Emitter.EventEmitter.DispatchMatching | event-emitter.js:340-342 | the action walks every matching list, key after key, and stops at the first TypeError |
| Emitter.EventEmitter.EmitAsWritten | event-emitter.js:327-344 | checks the name, walks the live lists, delivers each call with `(emitter, args)`, and returns the emitter or the TypeError of the walk |
| Emitter.EventEmitter.Emit | event-emitter.js:327-344 | the same, with each list walked over a copy |
| Emitter.EventEmitter.EmitAsync | event-emitter.js:332-335 | with `async`, calls nothing before returning and changes no list; every stored value of every matching key is scheduled, in order |
| Emitter.KeysContaining | event-emitter.js:102-107 | the loop over the enumerated keys collects exactly the selection for a bare namespace |
| Emitter.KeysOfFamily | event-emitter.js:114-118 | the loop collects exactly the selection for a name without a dot |
| Emitter.Splice | event-emitter.js:287-291 | `indexOf` then `splice(index, 1)` on the list is `RemoveFirst` |
| Emitter.EmptyLists | event-emitter.js:48-50 | empties the lists of the given keys and keeps every other list and every key |
| Emitter.EachLive | event-emitter.js:51-55 | the index loop with a fixed bound over the live list is the walk `RunLive` |
| Emitter.EachSnapshot | event-emitter.js:51-55 | the same loop over a copy is the walk `RunSnapshot` |
| Emitter.DispatchEach | event-emitter.js:340-342 | walking the keys in turn is the dispatch `DispatchKeys`, which ends at the first TypeError |
| Emitter.Schedule | event-emitter.js:332-335 | the async invoker schedules every stored value, key after key, in list order |
| LegacySpec.Touch | EventEmitter.js:41-44 | `dict[eventName] || (dict[eventName] = [])` (stated by `LegacySpec.TouchKeepsLists`) |
| LegacySpec.Push | EventEmitter.js:52-56 | `listeners(eventName).push(value)` (stated by `LegacySpec.OnAppends` and `LegacySpec.PushPrefixAppendsEach`) |
| LegacySpec.On | EventEmitter.js:46-59 | `on` with a name that is not a hash object: push the listener as given under `String(eventName)` |
| LegacySpec.Once | EventEmitter.js:61-80 | `once` with a name that is not a hash object: push a new wrapper that remembers the name argument |
| LegacySpec.PushPrefix | EventEmitter.js:48-53 | the first `n` own properties of a hash registered in property order, in the form's wrapping |
| LegacySpec.Unsubscribe | EventEmitter.js:91-95 | `indexOf` then `splice(index, 1)` on `listeners(key)` |
| LegacySpec.Off | EventEmitter.js:82-98 | the three shapes of `off`, chosen by which arguments are `undefined`; the listener argument is any value as stored, a wrapper included (stated by `LegacySpec.OffTouchesOneKey`) |
| LegacySpec.Fire | EventEmitter.js:63-67 | a oneTimeListener's `off(eventName, oneTimeListener)` during a walk: an undefined name replaces the dictionary and detaches the walked array; otherwise it splices `listeners(eventName)`, which is the walked array only for the walked key |
| LegacySpec.RunLive | EventEmitter.js:103-105 | `forEach` over the live array: indices up to the length on entry, an index past the current end skipped, calling `undefined` throws |
| LegacySpec.RunCopy | EventEmitter.js:103-105 | the same walk over a copy, wrappers acting on the dictionary only |
| LegacySpec.EmitLive | EventEmitter.js:100-107 | `emit` as written: `listeners(eventName)` walked live |
| LegacySpec.EmitCopy | EventEmitter.js:100-107 | `emit` with the list copied before the walk |
| LegacySpec.TouchKeepsLists | EventEmitter.js:41-44 | `listeners(eventName)` returns the stored list or a new empty one; no other list changes |
| LegacySpec.OnAppends | EventEmitter.js:55-56 | `on(eventName, f)` appends `f` at the end of that key's list and leaves every other list alone |
| LegacySpec.OnThenOffRestores | EventEmitter.js:89-95 | adding a listener that was not there and removing it again gives back the list `listeners` returned |
| LegacySpec.OffKeepsOneTime | EventEmitter.js:89-95 | `off(eventName, f)` leaves every once-wrapper in place, because it compares identities |
| LegacySpec.OffCancelsOneTime | EventEmitter.js:61-95 | `once(eventName, f)` appends a fresh wrapper `w`; `off(eventName, w)` with that wrapper read back from `listeners(eventName)` removes it and gives back the list `listeners(eventName)` returned before |
| LegacySpec.OffTouchesOneKey | EventEmitter.js:82-98 | `off()` drops every key; `off(eventName)` empties that one key with no namespace matching; no shape touches another key |
| LegacySpec.PushPrefixKeepsOthers | EventEmitter.js:48-53 | the hash forms leave the list of any name outside the hash as it was |
| LegacySpec.PushPrefixAppendsEach | EventEmitter.js:48-53 | the hash forms append each property's value, in the form's wrapping, at the end of its own name's list |
| LegacySpec.PlainWalkCallsAll | EventEmitter.js:100-107 | `emit` calls a list without once-wrappers in registration order, each once, and changes nothing |
| LegacySpec.UndefinedHeadThrows | EventEmitter.js:103-105 | a stored `undefined` at the head throws before any call |
| LegacySpec.CopyWalkCallsAll | EventEmitter.js:103-105 | over a copy, every callable listener is called in order and the walk does not throw |
| LegacySpec.NamedOneTimeRemovesItself | EventEmitter.js:63-67 | a wrapper made for a name, alone in its list, is called once and takes itself out |
| LegacySpec.OnceFiresOnce | EventEmitter.js:61-80 | `once(eventName, f)` on an empty name: the next `emit` calls `f`, and the one after calls nothing |
| LegacySpec.UndefinedOneTimeClearsAll | EventEmitter.js:63-67 | a wrapper made by `once()` with no name calls `off(undefined, …)` when it fires, which drops every list |
| LegacySpec.HashOneTimeStays | EventEmitter.js:69-74 | as written, a wrapper from `once(hash)` removes itself from "[object Object]" and stays in its own list |
| LegacySpec.HashOnceFiresEveryTime | EventEmitter.js:69-74 | as written, every `emit` of that name calls the listener again |
| LegacySpec.FixedHashOnceFiresOnce | EventEmitter.js:69-74 | corrected, a wrapper that remembers its property name fires once and leaves |
| LegacySpec.OneTimeSkipsNext | EventEmitter.js:103-105 | as written, a once-wrapper followed by a plain listener: `emit` calls only the first, and the second stays |
| LegacySpec.CopyCallsAfterOneTime | EventEmitter.js:103-105 | corrected, walking a copy calls both listeners, and the wrapper still leaves the list |
| LegacySpec.EmitAfterOffAllCallsNothing | EventEmitter.js:83-85 | after `off()`, no `emit` calls anything |
| LegacySpec.EmitAfterOffCallsNothing | EventEmitter.js:86-88 | after `off(eventName)`, emitting that name calls nothing |
| LegacySpec.PushValid | EventEmitter.js:52-56 | pushing a plain listener, or a wrapper with a fresh identity, keeps the wrapper invariant |
| LegacySpec.OnValid | EventEmitter.js:46-59 | `on(eventName, f)` keeps the wrapper invariant |
| LegacySpec.OnceValid | EventEmitter.js:61-80 | the wrapper `once` makes is stored under no key yet, and `once` keeps the wrapper invariant |
| LegacySpec.PushPrefixValid | EventEmitter.js:48-53 | every hash form keeps the wrapper invariant, each wrapper taking a fresh identity |
| LegacySpec.TouchValid | EventEmitter.js:41-44 | `listeners(eventName)` keeps the wrapper invariant |
| LegacySpec.OffValid | EventEmitter.js:82-98 | every shape of `off` keeps the wrapper invariant |
| LegacySpec.EmitValid | EventEmitter.js:100-107 | `emit`, live or over a copy, keeps the wrapper invariant |
| LegacySpec.OneTimeRemovesOnlyItself | EventEmitter.js:63-67 | under the invariant, a firing wrapper's `off` removes it from its own index and nothing else |
| Legacy.Deliver | EventEmitter.js:101-104 | each invoked listener receives the arguments after the event name, in order |
| Legacy.EventEmitter.constructor | EventEmitter.js:31-33 | a new emitter has an empty dictionary and satisfies the wrapper invariant |
| Legacy.EventEmitter.Listeners | EventEmitter.js:41-44 | returns the list under `String(eventName)`, created empty if absent, with no check of the name |
| Legacy.EventEmitter.Register | EventEmitter.js:56 | `listeners(eventName).push(value)` |
| Legacy.EventEmitter.On | EventEmitter.js:46-59 | for a name that is not a hash object (a hash object takes `OnHash`), appends the listener as given, keeps the wrapper invariant, and returns the emitter |
| Legacy.EventEmitter.Once | EventEmitter.js:61-80 | for a name that is not a hash object (a hash object takes `OnceHash`), appends a new wrapper that remembers the name argument, keeps the wrapper invariant, and returns the emitter |
| Legacy.EventEmitter.PushHash | EventEmitter.js:51-53 | the loop over the property names registers each value under its name in property order |
| Legacy.EventEmitter.OnHash | EventEmitter.js:48-53 | `on(hash)` registers each value as given and returns the emitter |
| Legacy.EventEmitter.OnceHash | EventEmitter.js:69-74 | `once(hash)` as written: each wrapper remembers the hash object |
| Legacy.EventEmitter.OnceHashFixed | EventEmitter.js:69-74 | corrected `once(hash)`: each wrapper remembers its own property name |
| Legacy.EventEmitter.Off | EventEmitter.js:82-98 | replaces the dictionary, empties one list, or removes the first value identical to the listener argument (a wrapper read from `listeners` included), by which arguments are `undefined`; returns the emitter |
| Legacy.EventEmitter.EmitAsWritten | EventEmitter.js:100-107 | walks the live list of `listeners(eventName)` and delivers each call with the remaining arguments |
| Legacy.EventEmitter.Emit | EventEmitter.js:100-107 | the same walk over a copy |
| Legacy.Splice | EventEmitter.js:91-95 | `indexOf` then `splice(index, 1)` on `listeners(key)` is `Unsubscribe` |
| Legacy.OffWrapper | EventEmitter.js:63-67 | what a firing wrapper's `off(eventName, oneTimeListener)` does to the dictionary and to the walked array |
| Legacy.ForEachLive | EventEmitter.js:103-105 | `forEach` over the live array, skipping indices past its current end, is the walk `RunLive` |
| Legacy.ForEachCopy | EventEmitter.js:103-105 | `forEach` over a copy is the walk `RunCopy` |

## Left out

- Module loading (the UMD, AMD and CommonJS wrappers at the top of both files): plumbing with no registry semantics.
- `extend` in both files: it copies prototype properties reflectively and has no registry semantics.
- Asynchronous dispatch through `setImmediate`. `Emitter.EventEmitter.EmitAsync` only states that nothing is called before `emit` returns and which values are pending. The later invocations, and what once-wrappers do when they eventually run, are not modelled.
- Listener bodies, re-entrant `on`/`off`/`emit` from inside a listener, and exceptions thrown by listeners: these are foreign callbacks. The only effect of a call that is modelled is a once-wrapper removing itself.
- JavaScript `typeof` corner cases: `null` passing `require` and taking the hash path, names that are neither `undefined` nor strings nor hash objects, and a `once` option that is truthy without being `true`. Names are `Option<string>` in the current version and `Target` in the legacy one; `once` is a `bool`.
- Key order: `for..in` in `own` (event-emitter.js:58-64) and `Object.getOwnPropertyNames` in the legacy `own` (EventEmitter.js:23-25, used at 51 and 72) both place integer-like keys first, in ascending order. The model enumerates keys, and the properties of a hash, in insertion order only. Keys that shadow `Object.prototype` properties are not modelled either.
- The lazy creation of `__listeners` on first use: the model creates the dictionary in the constructor. The two are indistinguishable through the operations.
- Aliasing of lists. `listeners()` returns the dictionary itself, and `listeners(name)` returns the list itself, so a caller could mutate either. The model returns values. Only the emitter's own mutations, including a once-wrapper's `off` during `emit`, act on the stored lists.
- Emitter.EventEmitter.EmitAsync: the `args` value is not carried into the pending entries, since nothing is invoked before `emit` returns.
- The legacy `emit` reads its variadic arguments through `arguments`. The model takes them as a sequence.

## Findings

| source | as written | input that shows it | evidently intended | confidence | as-written member | corrected member |
|---|---|---|---|---|---|---|
| event-emitter.js:51-55 | `each` fixes `n` on entry and reads the live list, which a firing once-wrapper splices (event-emitter.js:237) | `on('e', a, {once: true}); on('e', b); emit('e')` | `a` and `b` are both called and `b` stays registered | not executed | EmitterSpec.OnceThenPlainEmitThrows | EmitterSpec.OnceThenPlainEmitSnapshot |
| EventEmitter.js:63-74 | the wrapper made by `once(hash)` closes over the outer `eventName`, which is the hash object, so its `off` targets the key "[object Object]" | `once({e: f}); emit('e'); emit('e')` | `f` is called once and its wrapper leaves the list of 'e' | not executed | LegacySpec.HashOnceFiresEveryTime | LegacySpec.FixedHashOnceFiresOnce |
| EventEmitter.js:103-105 | `forEach` over the live array: a firing wrapper splices itself out, the next listener moves into its index, and `forEach` skips it | `once('e', a); on('e', b); emit('e')` | `a` and `b` are both called | not executed | LegacySpec.OneTimeSkipsNext | LegacySpec.CopyCallsAfterOneTime |

In the current version, the walk as written ends by reading past the end of
the shortened list and calling `undefined`, which throws a TypeError. In the
legacy version the skipped index is simply not visited.
`Emitter.EventEmitter.Emit` and `Legacy.EventEmitter.Emit` are the corrected
walks over a copy. `EmitAsWritten` in each class keeps the behaviour as written.
