# Observable properties, WebSocket URL rewriting and array removal — a Dafny model

This project models the core of a small TypeScript utility library:

- **Observable properties** (`src/property.ts`). A `Property` keeps an
  insertion-ordered list of listeners: `addListener` appends, `removeListener`
  deletes the first identical entry, and `callListener` calls every entry in
  order with the old value and the current value. A `SimpleProperty` is a
  value cell. Its setter does nothing for an equal value and otherwise runs
  `update`, which stores a non-null result and then notifies every listener,
  even when nothing changed. A `NestProperty` reads and writes through to a
  `current` leaf property, chosen by mapping its owner's value. When the owner
  changes, its owner listener unsubscribes the inner listener from the old
  leaf, remaps, subscribes to the new leaf and notifies the nest's own
  listeners.
- **`resolveWebsocketURL`** (`src/ws.ts`). It rewrites `http://` to `ws://`
  and `https://` to `wss://`. These are the `ws` and `wss` URI schemes of
  section 3 of RFC 6455.
- **`arrayRemove`** (`src/array.ts`). It finds the first occurrence of a value
  and calls `splice(index)` on the caller's array. With one argument `splice`
  truncates, so the match and everything after it are removed.

Layout:

- `seqs.dfy` (module `Seqs`): `indexOf` and the single-element `splice` that
  `removeListener` performs.
- `ws.dfy` (module `Ws`): the URL rewrite as a pure function, with its
  branch, exclusivity and idempotence lemmas.
- `array_util.dfy` (module `ArrayUtil`): a JavaScript array object, a class
  with a `seq` field, and `ArrayRemove`, which truncates it in place.
- `properties.dfy` (module `Properties`): the state of all properties as a
  sequence of cells indexed by `PropId`. It holds the pure transitions
  (subscribe, unsubscribe, write, create a nest, retarget a nest), the
  notification round, and the lemmas about them. The `WellFormed` predicate
  covers references; `Wired` covers the two subscription edges of every nest.
- `store.dfy` (module `PropertyStore`): class `Store`, whose methods are the
  operations of the three property classes. Each method is proved to perform
  the matching transition and to return its notifications as a trace.
- `scenarios.dfy` (module `Scenarios`): two clients that replay the
  documented behaviour from the contracts alone.

Listeners are tagged entries, not closures. `External(id)` is a client
callback. `Inner(n)` and `Owner(n)` are the private inner and owner
listeners of nest `n`. A notification round returns one
`Event(source, listener, old, new)` per list entry, in list order.
`Store.Deliver` then runs what an `Inner` or `Owner` entry does.

## Model

| member | source | states |
|---|---|---|
| Seqs.IndexOf | src/array.ts:2 | `indexOf` gives -1 exactly when the value is absent; otherwise the index of a match with no match before it |
| Seqs.RemoveFirst | src/property.ts:25-30 | removing a listener leaves the list unchanged when the entry is absent, otherwise shortens it by one, and removes exactly one instance of that entry |
| Seqs.RemoveFirstCount | src/property.ts:25-30 | removal lowers the count of the removed entry by one (never below zero) and leaves the count of every other entry unchanged |
| Seqs.RemoveFirstAfterPrefix | src/property.ts:26-28 | when the entries before a match hold no other match, removal deletes exactly that match and keeps the entries on both sides in order |
| Seqs.RemoveFirstIsSplice | src/property.ts:26-29 | `indexOf` followed by `splice(index, 1)` equals RemoveFirst: entries before the first match keep their places, and later ones move down by one |
| Ws.ResolveWebsocketUrl | src/ws.ts:1-8 | `http://u` becomes `ws://u` and `https://u` becomes `wss://u`, each 2 characters shorter; any other input is returned unchanged |
| Ws.AtMostOneRewrite | src/ws.ts:2-6 | no input starts with both prefixes, and the first branch's output never starts with `https://`, so at most one rewrite applies |
| Ws.ResolvedIsFinal | src/ws.ts:1-8 | a result never starts with `http://` or `https://` |
| Ws.ResolveIdempotent | src/ws.ts:1-8 | resolving twice gives the same result as resolving once |
| Ws.Examples | src/ws.ts:1-8 | `http://a/b` gives `ws://a/b`, `https://a/b` gives `wss://a/b`, and `ftp://x` is kept |
| ArrayUtil.Before | src/array.ts:2-5 | the longest prefix without the value: a prefix of the input that does not contain the value and stops only at a match |
| ArrayUtil.BeforeIsTruncation | src/array.ts:2-5 | with no match the array is kept whole; otherwise it is cut at the index `indexOf` reports |
| ArrayUtil.ArrayRemove | src/array.ts:1-6 | the array becomes `old[..i]` for the first match `i`, losing at least one element, or stays unchanged without a match; afterwards the value does not occur |
| ArrayUtil.ArrayRemoveTruncatesTail | src/array.ts:4 | on `[1, 2, 3]` with value 2 the array becomes `[1]`, whereas removing only the match gives `[1, 3]` |
| Properties.Round | src/property.ts:36-40 | a round has one event per listener entry, in list order, each carrying the old value and the value read at call time |
| Properties.RoundReachesEachEntryOnce | src/property.ts:36-40 | a round reaches exactly the list, duplicates included, so each entry is called as many times as it occurs in the list |
| Properties.SetterNotifiesOnChange | src/property.ts:50-54 | an equal value changes nothing and notifies nobody; another value is stored unless null, and every entry is notified with (old, stored), so a null write yields (old, old); no listener list changes |
| Properties.SubscribeClientKeepsWired | src/property.ts:21-23 | appending a client listener keeps both subscription edges of every nest |
| Properties.UnsubscribeKeepsWired | src/property.ts:25-30 | removing any entry other than an owner listener keeps both subscription edges of every nest |
| Properties.DetachInner | src/property.ts:79 | after the inner listener is removed from the current target, no list holds it |
| Properties.RetargetDetached | src/property.ts:80 | retargeting a detached nest keeps every subscription edge |
| Properties.AttachInner | src/property.ts:81 | subscribing a detached nest's inner listener puts it once on its target's list and on no other list |
| Properties.CreatedWellFormed | src/property.ts:85-92 | building a nest on an existing owner, with a mapping that yields leaves, keeps the store well formed |
| Properties.CreatedWired | src/property.ts:85-92 | construction targets `map(owner.value)` and registers only the owner listener, once on the owner's list; no list holds the inner listener, so the first leaf is not forwarded |
| Properties.WrittenWellFormed | src/property.ts:62-68 | storing a value in a leaf keeps the store well formed and every subscription edge |
| Properties.RetargetStepWellFormed | src/property.ts:80 | pointing a nest at another leaf keeps the store well formed |
| Properties.RetargetedWellFormed | src/property.ts:77-83 | the owner listener keeps the store well formed |
| Properties.RetargetedWired | src/property.ts:77-83 | the owner listener keeps every edge and sets `current := map(new owner value)`; afterwards the inner listener sits once on the new target and on no other list |
| Properties.RetargetedValues | src/property.ts:77-83 | the owner listener changes no stored value and no other property; only the nest's target changes, so the nest now reads the new leaf's value |
| Properties.ForwardingFollowsTarget | src/property.ts:74-83 | after an owner change, a round on the old target no longer reaches the nest, and a round on the new target reaches it exactly once |
| Properties.WriteThroughSparesOwner | src/property.ts:94-100 | writing through a nest changes only its current target: every other property, the owner included, and every listener list stay as they were, and the nest reads the stored value |
| PropertyStore.Store.NewSimple | src/property.ts:57-60 | a new simple property holds the default value and has no listeners; nothing else changes |
| PropertyStore.Store.AddListener | src/property.ts:21-23 | the entry is appended with no uniqueness check, and no other property changes |
| PropertyStore.Store.RemoveListener | src/property.ts:25-30 | the list loses its first identical entry; nothing changes when the entry is absent |
| PropertyStore.Store.CallListener | src/property.ts:36-40 | the loop notifies every entry in order with (old, current value) |
| PropertyStore.Store.Update | src/property.ts:62-69 | `f`'s result is stored unless null, and every listener is notified with (old, stored) even when nothing changed |
| PropertyStore.Store.SetSimple | src/property.ts:50-55 | an equal value is a no-op with no notifications; otherwise it behaves as `update` with the constant value |
| PropertyStore.Store.SetNest | src/property.ts:98-100 | the nest's setter is the setter of its current target |
| PropertyStore.Store.NestProp | src/property.ts:85-92 | appends a nest that targets `map(owner.value)` and has the owner listener appended to the owner's list |
| PropertyStore.Store.OwnerListener | src/property.ts:77-83 | unsubscribes from the old target, retargets, subscribes to the new target, then notifies the nest's listeners with (old target's value, new target's value) |
| PropertyStore.Store.InnerListener | src/property.ts:74-76 | re-raises a target change on the nest with the old value the target reported |
| PropertyStore.Store.Deliver | src/property.ts:37-39 | calling an entry does nothing to the store for a client callback, runs the inner listener for `Inner(n)` and the owner listener for `Owner(n)` |
| Scenarios.SetThenUpdate | src/property.ts:50-69 | from 1, setting 2 notifies (1, 2); setting 2 again notifies nobody; incrementing with `update` notifies (2, 3); a null `update` keeps 3 and notifies (3, 3) |
| Scenarios.RetargetOnOwnerChange | src/property.ts:74-100 | the first leaf is not forwarded before an owner change; an owner change notifies the nest once; afterwards the old leaf is silent and the new leaf is forwarded; a write through the nest leaves the owner alone |

## Left out

- The React hooks `useProperty` and `usePropertyMap` (src/property.ts:103-125) are UI glue over a foreign runtime's `useState` and `useEffect`. The duplicate-on-`slice` copy is also not modelled.
- The synchronous depth-first cascade is not run. In the program, a listener is called inside `forEach`, and the owner listener edits other listener lists while that loop runs. Here a round only returns its events. `Store.Deliver` runs one event's handler, and the caller decides when. Re-entrant listeners, which set the property they observe, are not modelled.
- Exceptions thrown by listeners or by the mapping are not modelled. They would propagate after the state was already updated.
- JavaScript's loose equality (`==`, `!= null`) is modelled as Dafny equality. One `Null` value stands for both null and undefined.
- Listener closures are modelled as tagged identifiers. The property argument a listener receives is the event's `source`.
- Store.NestProp: the mapping is a total function from owner values to ids of SimpleProperty cells that already exist. A mapping that returns a NestProperty, or that creates a new property on each call, is not modelled.
- Store.NestProp: one value type serves both the owner and the leaves; the source's separate owner type `F` is not modelled.
- Store.OwnerListener: the owner's new value is passed in. It is what the owner's notification round carries.
- The `Observable` interface and `nestProp` as a method on a property object are modelled as the `Store` methods that take a property id.
- JavaScript strings are UTF-16. Here they are sequences of characters.
- JavaScript arrays are modelled as objects with a growable `seq` field. Indices are unbounded.

## Findings

| source | as written | input that shows it | evidently intended | confidence | as-written member | corrected member |
|---|---|---|---|---|---|---|
| src/array.ts:4 | `array.splice(index)` deletes the match and every element after it | `arrayRemove([1, 2, 3], 2)` leaves `[1]` | `array.splice(index, 1)`: remove only the first match and leave `[1, 3]`, as `removeListener` does at src/property.ts:28 | medium: the function's name and the sibling `removeListener` point to single removal; not executed | ArrayUtil.ArrayRemoveTruncatesTail | Seqs.RemoveFirst |

`ArrayUtil.ArrayRemove` keeps the truncating behaviour as written. A caller
may rely on it. `Seqs.RemoveFirst` is the single-element removal, proved by
`Seqs.RemoveFirstIsSplice` and `Seqs.RemoveFirstCount`, and the listener
lists use it.
