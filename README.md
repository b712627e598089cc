# Binder<T>: a verified model of MvLib's property/field binding registry

MvLib's `Binder<T>` wires `ReactiveProperty<T>` objects to UI-toolkit
`BaseField<T>` widgets in the Unity editor. For every binding it registers a
change callback on the field and subscribes to the property. It keeps a list
of `BindModel<T>` records (property, field, callback, subscription) so that it
can undo that wiring later through `UnBind`, `UnBindAll` and `Dispose`.

This project models that registry in Dafny:

- `bindings.dfy` (module `Bindings`) holds the identities, the `BindModel`
  record and the `List<T>` operations the binder relies on: `Find` /
  `FirstOrDefault` with the reference-equality predicate, `FindAll` and
  `Remove`.
- `binder_spec.dfy` (module `BinderSpec`) gives each operation as a function
  from the state before the call to the state after it. The state is the list
  of records plus the effects this binder has had on the outside world: the
  callbacks it has registered on fields and not yet unregistered, the
  subscriptions it has made and not yet disposed, the callbacks it has put on
  the `PropertyField` elements of the by-name `Bind`, the messages it has
  logged, and a counter that hands out new identities. Registrations made by
  other code are not part of the state, so a new binder starts with all of
  these empty and its counter at 0. The module also defines the binder's
  invariant.
- `binder_properties.dfy` (module `BinderProperties`) holds the lemmas about
  those functions.
- `binder.dfy` (module `MvLib`) has class `Binder`. Its field `bindModels` is
  changed in place. Its methods follow the source statement by statement,
  including the index loops of `UnBindAll` and `Dispose`. Each method is
  proved to produce exactly the state its `BinderSpec` function gives, and to
  keep the invariant.

`ReactiveProperty<T>` and `BaseField<T>` are opaque objects compared by
reference, so they are natural-number identities (`PropId`, `FieldId`). Every
callback, subscription and `PropertyField` the binder creates gets a new
`Handle` from the counter. The class methods require `Valid()`. That is the
invariant the constructor sets up and every method keeps. The C# class has the
same guarantee implicitly, because a program cannot reach its list except
through these methods.

## Behaviour the model follows as written

The class's doc comment (`MvLib/Reactive/Binder.cs:13-16`) says that it
creates, updates and removes bindings, and that it frees its resources through
`IDisposable`. The code falls short of that in two places. The model follows
the code in both.

- **Re-binding a bound pair** (`MvLib/Reactive/Binder.cs:65-68`). `Bind` first
  creates and installs a new callback and subscription. When the pair already
  has a record, `Bind` calls `UnBind`, which removes that record, and then
  records nothing new. So after the second `Bind` the pair has no record at
  all. The new callback and subscription stay installed, but no record holds
  them (`BindBound`, `BindBoundLeavesUntracked`). Such an untracked callback
  and subscription stay installed through every later `Bind`, `UnBind`,
  `UnBindAll` and `Dispose` (`BindKeepsUntracked`, `UnBindKeepsUntracked`,
  `UnBindAllKeepsUntracked`, `DisposeKeepsUntracked`). So the binding is
  neither updated nor removed, and its resources are never freed.
- **Dispose** (`MvLib/Reactive/Binder.cs:96-99`). The loop walks the live list
  by index while `UnBind` shrinks it. So it tears down only the records at
  original positions 0, 2, 4, …. `Clear()` then drops the records at odd
  positions while their callbacks are still registered and their
  subscriptions still live (`DisposeTearsDownEvenPositions`). So `Dispose`
  frees the resources of only half the bindings. The list does always end
  empty, and a second `Dispose` changes nothing.

`UnBindAll` does take a `FindAll` snapshot before its loop, so it removes
exactly the records of its property (`UnBindAllEffect`).

## Model

| member | source | states |
|---|---|---|
| `Bindings.Matches` | MvLib/Reactive/Binder.cs:52 | the lookup predicate of `Bind` and `UnBind` (:52, :74): a record matches when it holds the same property and the same field, both compared by reference |
| `Bindings.Find` | MvLib/Reactive/Binder.cs:52 | the lookup of `Bind` and `UnBind` gives null exactly when no record has the same property and field; otherwise it gives a record of the list with that pair |
| `Bindings.FindFirst` | MvLib/Reactive/Binder.cs:74 | the record found is the one at the first position whose pair matches |
| `Bindings.RemoveFirst` | MvLib/Reactive/Binder.cs:80 | `List.Remove` of a record in the list shortens the list by one; removing a record not in the list leaves it unchanged; only records of the list remain |
| `Bindings.RemoveFirstAt` | MvLib/Reactive/Binder.cs:80 | removing the record at its first occurrence drops exactly that position and keeps every other record in order |
| `Bindings.RemoveAtKeepsOthers` | MvLib/Reactive/Binder.cs:80 | after a `Remove` that drops one position, the records before it keep their places, the later ones move down by one, and no record appears that was not in the list |
| `Bindings.Remove` | MvLib/Reactive/Binder.cs:80 | `Remove(null)` (no record found) leaves the list unchanged; no removal lengthens the list or adds a record that was not in it |
| `Bindings.FindAll` | MvLib/Reactive/Binder.cs:85 | the snapshot holds exactly the records that reference the property |
| `Bindings.Others` | MvLib/Reactive/Binder.cs:85-89 | the complement of the snapshot holds exactly the records of other properties |
| `Bindings.FindAllPartition` | MvLib/Reactive/Binder.cs:85-89 | with N records of the property among M records, the snapshot has N and the rest has M - N |
| `BinderSpec.Initial` | MvLib/Reactive/Binder.cs:20 | a new binder starts with an empty list and nothing registered or subscribed |
| `BinderSpec.UniquePairs` | MvLib/Reactive/Binder.cs:52-68 | the property `Bind` aims at: at most one record per (property, field) pair |
| `BinderSpec.Invariant` | MvLib/Reactive/Binder.cs:42-101 | the invariant every operation keeps: unique pairs, each record's callback and subscription its own and still installed, and no identity in use that the binder has not yet handed out |
| `BinderSpec.UnBind` | MvLib/Reactive/Binder.cs:72-81 | `UnBind` of a pair with no record changes nothing; it never lengthens the list and never touches the log, the drawer callbacks or the identity counter |
| `BinderSpec.Subscribe` | MvLib/Reactive/Binder.cs:44-50 | `Bind` always registers its new callback on the field and makes its new subscription live, without touching the list |
| `BinderSpec.Bind` | MvLib/Reactive/Binder.cs:42-70 | `Bind` uses exactly two new identities and leaves the log and the drawer callbacks alone |
| `BinderSpec.UnBindEach` | MvLib/Reactive/Binder.cs:86-89 | the `UnBindAll` loop never lengthens the list and only changes the list, the registrations and the subscriptions |
| `BinderSpec.DisposeFrom` | MvLib/Reactive/Binder.cs:96-99 | the `Dispose` loop only changes the list, the registrations and the subscriptions |
| `BinderSpec.Dispose` | MvLib/Reactive/Binder.cs:92-101 | the list is empty after `Dispose`; on an empty binder `Dispose` changes nothing |
| `BinderSpec.BindByName` | MvLib/Reactive/Binder.cs:23-40 | with a missing field name the result is null, exactly one message is logged, and the list and all registrations are unchanged; otherwise the result is a new `PropertyField` and nothing is logged |
| `BinderSpec.NotFoundMessage` | MvLib/Reactive/Binder.cs:29 | the message logged for a missing field: `Field`, the field name, `not found in`, and the container's name |
| `BinderSpec.AllocateDrawer` | MvLib/Reactive/Binder.cs:34-36 | creating the `PropertyField` and registering its callback uses two new identities and touches neither the list nor the field registrations nor the subscriptions |
| `BinderProperties.UnBindFirstMatch` | MvLib/Reactive/Binder.cs:74-80 | `UnBind` of a pair removes exactly the first record of that pair, keeps the order of the rest, unregisters that record's callback from the field and disposes its subscription |
| `BinderProperties.InvariantRemoveAt` | MvLib/Reactive/Binder.cs:77-80 | removing one record together with its callback and subscription keeps the invariant |
| `BinderProperties.UnBindBound` | MvLib/Reactive/Binder.cs:74-80 | with the invariant, after `UnBind` of a bound pair no record of the pair remains, its callback and subscription are gone, and every remaining record is still registered and live |
| `BinderProperties.InvariantUnBind` | MvLib/Reactive/Binder.cs:72-81 | `UnBind` keeps the invariant |
| `BinderProperties.InvariantSubscribe` | MvLib/Reactive/Binder.cs:44-50 | the callback and subscription `Bind` creates are new objects, and installing them keeps the invariant |
| `BinderProperties.BindUnbound` | MvLib/Reactive/Binder.cs:44-63 | `Bind` of an unbound pair appends exactly one record (property, field, new callback, new subscription) after the unchanged earlier records; that is the pair's only record, and exactly the new callback and subscription are added to the world |
| `BinderProperties.BindBound` | MvLib/Reactive/Binder.cs:44-68 | `Bind` of a bound pair removes the old record and leaves no record for the pair; exactly the old callback is unregistered and the new one registered, exactly the old subscription is disposed and the new one made; no record tracks the new callback or subscription |
| `BinderProperties.BindOnlyNewRecord` | MvLib/Reactive/Binder.cs:44-68 | after `Bind`, whichever branch ran, the only record the pair can have is the one holding the callback and subscription just created |
| `BinderProperties.InvariantBind` | MvLib/Reactive/Binder.cs:42-70 | `Bind` keeps the invariant, so no pair ever gets a second record |
| `BinderProperties.UnBindFrame` | MvLib/Reactive/Binder.cs:74-80 | `UnBind` leaves a record of another pair untouched at the front of the list |
| `BinderProperties.UnBindEachFrame` | MvLib/Reactive/Binder.cs:86-89 | the `UnBindAll(p)` loop leaves a record of another property untouched at the front of the list |
| `BinderProperties.UnBindAllEffect` | MvLib/Reactive/Binder.cs:83-90 | after `UnBindAll(p)` the list is exactly the records of other properties in their original order, and every snapshot record's callback and subscription are torn down |
| `BinderProperties.UnBindAllRemovesProperty` | MvLib/Reactive/Binder.cs:83-90 | after `UnBindAll(p)` no record references p, every record of another property is still there, and M - N records remain |
| `BinderProperties.InvariantUnBindEach` | MvLib/Reactive/Binder.cs:86-89 | every round of the `UnBindAll` loop keeps the invariant |
| `BinderProperties.InvariantUnBindAll` | MvLib/Reactive/Binder.cs:83-90 | `UnBindAll` keeps the invariant |
| `BinderProperties.RoundShapeStep` | MvLib/Reactive/Binder.cs:96-99 | if after i rounds the list is the odd-position records below 2i followed by the untouched tail, removing the record at index i gives that shape for i + 1 rounds |
| `BinderProperties.RoundFirstMatch` | MvLib/Reactive/Binder.cs:96-98 | in round i the index i holds the original record at position 2i, and no earlier record has its pair, so `UnBind` removes that very record |
| `BinderProperties.DisposeRound` | MvLib/Reactive/Binder.cs:96-98 | round i of the loop removes the record at index i (original position 2i) and tears down exactly its callback and subscription in addition to the earlier even positions |
| `BinderProperties.DisposeNextRound` | MvLib/Reactive/Binder.cs:96-99 | a round that is not the last leaves the loop in its state after i + 1 rounds: position 2i + 1 is skipped without teardown |
| `BinderProperties.DisposeLastRound` | MvLib/Reactive/Binder.cs:96-99 | on a list of odd length the round that removes the last even position ends the loop, with only the odd-position records left |
| `BinderProperties.DisposeNoRound` | MvLib/Reactive/Binder.cs:96 | on a list of even length the loop condition fails after half the rounds, with only the odd-position records left |
| `BinderProperties.DisposeFromRounds` | MvLib/Reactive/Binder.cs:96-99 | after i rounds the `Dispose` loop has torn down the records at even positions below 2i, and the records at odd positions below 2i are still in the list; at the end the list holds exactly the odd-position records |
| `BinderProperties.DisposeTearsDownEvenPositions` | MvLib/Reactive/Binder.cs:92-101 | `Dispose` empties the list; a record's callback is unregistered and its subscription disposed exactly when its original position is even; the odd-position records are cleared without teardown |
| `BinderProperties.InvariantDisposeFrom` | MvLib/Reactive/Binder.cs:96-99 | every round of the `Dispose` loop keeps the invariant |
| `BinderProperties.InvariantDispose` | MvLib/Reactive/Binder.cs:92-101 | `Dispose` keeps the invariant, and a second `Dispose` changes nothing |
| `BinderProperties.InvariantAllocateDrawer` | MvLib/Reactive/Binder.cs:34-36 | the `PropertyField` and its callback are new objects, and creating them keeps the invariant |
| `BinderProperties.BindByNameFound` | MvLib/Reactive/Binder.cs:32-39 | with a field name that exists, the by-name `Bind` returns a new `PropertyField` carrying one new callback, keeps the invariant, and leaves the named property's only possible record for the field as the one holding the new callback and subscription |
| `BinderProperties.BindBoundLeavesUntracked` | MvLib/Reactive/Binder.cs:44-68 | after `Bind` of a bound pair, the new callback is registered and the new subscription live, and no record holds either |
| `BinderProperties.UnBindKeepsUntracked` | MvLib/Reactive/Binder.cs:72-81 | `UnBind` of any pair keeps an untracked callback registered and an untracked subscription live, and still untracked |
| `BinderProperties.BindKeepsUntracked` | MvLib/Reactive/Binder.cs:42-70 | a later `Bind` of any pair keeps an untracked callback and subscription installed and untracked |
| `BinderProperties.UnBindEachKeepsUntracked` | MvLib/Reactive/Binder.cs:86-89 | every round of the `UnBindAll` loop keeps an untracked callback and subscription installed and untracked |
| `BinderProperties.UnBindAllKeepsUntracked` | MvLib/Reactive/Binder.cs:83-90 | `UnBindAll` of any property keeps an untracked callback and subscription installed |
| `BinderProperties.DisposeFromKeepsUntracked` | MvLib/Reactive/Binder.cs:96-99 | every round of the `Dispose` loop keeps an untracked callback and subscription installed |
| `BinderProperties.DisposeKeepsUntracked` | MvLib/Reactive/Binder.cs:92-101 | `Dispose` leaves an untracked callback registered and an untracked subscription live |
| `BinderProperties.BindByNameKeepsUntracked` | MvLib/Reactive/Binder.cs:23-40 | the by-name `Bind`, whether or not the field exists, keeps an untracked callback and subscription installed |
| `MvLib.Binder.constructor` | MvLib/Reactive/Binder.cs:20 | a new binder has an empty list and satisfies the invariant |
| `MvLib.Binder.Bind` | MvLib/Reactive/Binder.cs:42-70 | the method changes the binder and the world exactly as `BinderSpec.Bind` says, and keeps the invariant |
| `MvLib.Binder.BindByName` | MvLib/Reactive/Binder.cs:23-40 | the method returns and changes exactly what `BinderSpec.BindByName` says, and keeps the invariant |
| `MvLib.Binder.UnBind` | MvLib/Reactive/Binder.cs:72-81 | the method changes the binder and the world exactly as `BinderSpec.UnBind` says, and keeps the invariant |
| `MvLib.Binder.UnBindAll` | MvLib/Reactive/Binder.cs:83-90 | the index loop over the `FindAll` snapshot gives exactly `BinderSpec.UnBindAll`, and keeps the invariant |
| `MvLib.Binder.Dispose` | MvLib/Reactive/Binder.cs:92-101 | the index loop over the shrinking list followed by `Clear()` gives exactly `BinderSpec.Dispose`, and keeps the invariant |

## Left out

- Unity reflection and serialization in the by-name `Bind` (`GetFields`, `GetValue`, `FindProperty`, `new PropertyField`). These are host APIs, so the model abstracts them as a map from field names to the properties those fields hold.
- A field whose value is not a `ReactiveProperty<T>`. The `as` cast at `Binder.cs:32` would then give null and `Binder.cs:35` would throw. The map only models fields that hold a property.
- The object name in the error message. `ToString` of `targetObject` is a host call, so it is the string parameter `target`.
- Values: the assignment `field.value = reactivePropValue.Value` (`Binder.cs:35`), what the callbacks and subscriptions do when they fire (`SetValueAndNotify`, `field.value = value`), notification order and equality. These belong to `ReactiveProperty<T>` and the UI framework, which are not part of this model. Only the identities of callbacks and subscriptions are modelled, and whether each one is installed.
- The null checks on `Delegate` and `Disposable` (`Binder.cs:77-78`) and on `bindModels` (`Binder.cs:94`). The only records are the ones `Bind` creates, and they always hold a lambda and the result of `Subscribe`. The list field is never null.
- Null `ReactiveProperty` or `BaseField` arguments. The source does not check for them and lets the host throw.
- The type parameter `T`. No operation depends on it.
- `MvLib/Editor/ReactiveProperty/ReactivePropertyPropertyDrawer.cs` is not part of this model. It only builds editor UI through host APIs and has no logic of its own.
- Concurrency. Everything runs on the editor's main thread.
