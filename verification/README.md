# pex: observable values, in Dafny

pex keeps an application's settings in *model* nodes and lets user-interface
*control* nodes read and write them. Every write is published to whoever
observes the node. The same design exists twice in the repository:

- a Python package: tubes, manifolds, values, signals, choosers, ranges,
  transforms and the wx shortcut helpers;
- a C++ header library: model and control values, signals, lists and ordered
  lists, ranges, selects, choosers, aggregates of grouped members, the
  polymorphic values, and the wx shortcut and accelerator helpers.

This project models both halves as pure functions over immutable state. An
operation takes the state of the nodes it touches. It returns the new state
together with what it announced, as a set of deliveries or a sequence of
events. An exception becomes an `Err` of the `Wrappers.Exception` kind that
the source raises or throws. Everything the source leaves to the runtime is
either a parameter or a value in the state:

- callbacks, observers and weak references are identities;
- Python's garbage collector is an explicit finalisation step;
- the wx constants are parameters or fixed codes.

## Layout

| module | file | models |
|---|---|---|
| `Wrappers`, `Find`, `Sequences`, `Texts` | `wrappers.dfy`, `find_index.dfy`, `sequences.dfy`, `texts.dfy` | results and exception kinds; `pex/find_index.h`; distinctness; joining and splitting labels |
| `PyTube` | `py_tube.dfy` | `python/pex/tube.py`: the registry of live model names |
| `PyProxy` | `py_proxy.dfy` | `python/pex/proxy.py`: weak callback and filter proxies |
| `PyManifold` | `py_manifold.dfy` | `python/pex/manifold.py`: name-keyed publish and subscribe |
| `PyValue` | `py_value.dfy` | `python/pex/value.py`: model, interface and filtered values, value contexts; the node registry of `python/pex/tube.py` |
| `PySignal` | `py_signal.dfy` | `python/pex/signal.py`, with `python/pex/tube.py` and `python/pex/manifold.py` |
| `PyChooser`, `PyChoices` | `py_chooser.dfy`, `py_choices.dfy` | `python/pex/chooser.py`, `python/pex/choices.py` |
| `PyRange` | `py_range.dfy` | `python/pex/range.py` |
| `PyTransform` | `py_transform.dfy` | `python/pex/transform.py`, `python/pex/transform_common.py` |
| `PyConverter` | `py_converter.dfy` | `python/pex/wx/utility/converter.py` |
| `PyShortcut` | `py_shortcut.dfy` | `python/pex/wx/shortcut.py` |
| `Connections` | `cpp_connection.dfy` | `pex/detail/connection.h`, `pex/detail/notify_one.h`, `pex/detail/notify_many.h` |
| `ModelValues`, `ControlValues` | `cpp_model_value.dfy`, `cpp_control_value.dfy` | `pex/model_value.h`, `pex/reference.h`, `pex/transaction.h`, `pex/detail/notify_many.h`, `pex/control_value.h`, `pex/interface_value.h` |
| `Tubes`, `Signals`, `Mutes` | `cpp_tube.dfy`, `cpp_signal.dfy`, `cpp_mute.dfy` | `pex/value.h`, `pex/signal.h`, `pex/detail/notify_one.h`, `pex/detail/notify_many.h`, and the mute state groups pass around |
| `Aggregates`, `ListConnects` | `cpp_aggregate.dfy`, `cpp_list_connect.dfy` | `pex/detail/aggregate.h`, `pex/detail/list_connect.h` |
| `Lists`, `OrderedLists`, `IndexedMaps` | `cpp_list.dfy`, `cpp_ordered_list.dfy`, `cpp_indexed_map.dfy` | `pex/list.h`, `pex/ordered_list.h`, `pex/indexed_map.h` |
| `Ranges` | `cpp_range.dfy` | `pex/range.h`, `pex/linked_ranges.h` |
| `Selects`, `Choosers` | `cpp_select.dfy`, `cpp_chooser.dfy` | `pex/select.h`, `pex/chooser.h` |
| `Bitsets`, `Expands`, `TupleToVariants` | `cpp_bitset.dfy`, `cpp_expand.dfy`, `cpp_tuple_to_variant.dfy` | `pex/bitset.h`, `pex/wx/bitset_check_boxes.h`, `pex/expand.h`, `pex/tuple_to_variant.h` |
| `Polys`, `PolyModels` | `cpp_poly.dfy`, `cpp_poly_model.dfy` | `pex/poly_base.h`, `pex/detail/poly_detail.h`, `pex/poly_value.h`, `pex/poly_model.h`, `pex/model_wrapper.h` |
| `Shortcuts` | `cpp_shortcut.dfy` | `pex/wx/shortcut.cpp`, `pex/wx/shortcut.h` |

The Python values call `Connect` (`python/pex/value.py:86`,
`python/pex/signal.py:51`), but the manifolds in `python/pex/manifold.py`
only define `Subscribe`. This model treats `Connect` as `Subscribe`.

## Model

| member | source | states |
|---|---|---|
| PyTube.Create | python/pex/tube.py:31-41 | a model node fails with `RuntimeError` exactly when its name is live and otherwise adds the name to the live set; an interface node never fails and never touches the live set |
| PyTube.Finalise | python/pex/tube.py:43-49 | finalising a model node removes its name from the live set; the "Unknown model node" warning is given exactly for a model node whose name is not live; an interface node changes nothing |
| PyTube.Copy | python/pex/tube.py:51-54 | a shallow copy of any node fails with `TypeError` |
| PyTube.DeepCopy | python/pex/tube.py:56-59 | a deep copy of any node fails with `TypeError` |
| PyTube.CreateThenFinalise | python/pex/tube.py:31-49 | creating a model node and then finalising it restores the live set, so the same name can be created again |
| PyTube.CreateInterfaces | python/pex/tube.py:31-41 | any sequence of interface-node creations succeeds whatever the names, and the live set is unchanged |
| PyTube.SecondModelNodeRefused | python/pex/tube.py:33-35 | while a model node is live, a second model node with its name fails with `RuntimeError` |
| PyProxy.Equals | python/pex/proxy.py:59-65 | a proxy equals a proxy of its own class, or a bare reference, exactly when the references are equal; comparing with anything else raises `NotImplementedError` |
| PyProxy.EqualsIsIdentity | python/pex/proxy.py:56-65 | proxy equality is reflexive, symmetric and transitive and implies equal hashes, so proxies are sound set elements and dict keys; a proxy rebuilt from the same reference compares equal to the stored one |
| PyProxy.CallSignal | python/pex/proxy.py:45-54 | calling a signal proxy reaches its referent when it is alive, and fails the assertion otherwise |
| PyProxy.CallValue | python/pex/proxy.py:86-96 | calling a value proxy passes the value on to its live referent, and fails the assertion when the referent is gone |
| PyProxy.CallFilter | python/pex/proxy.py:141-151 | calling a filter proxy returns what its live referent returns for the value, and fails the assertion when the referent is gone |
| PyManifold.Empty | python/pex/manifold.py:24-26 | a new manifold subscribes nothing and its two maps agree |
| PyManifold.Subscribe | python/pex/manifold.py:28-31 | subscribing adds exactly the pair (topic, proxy) to the relation and keeps the topic map and the callback map describing the same relation |
| PyManifold.Subscribers | python/pex/manifold.py:36-43 | the proxies that publishing a topic invokes are exactly those subscribed to it; an unknown topic invokes none |
| PyManifold.PublishValue | python/pex/manifold.py:82-89 | publishing a value calls every subscriber of the topic with that same value and calls nobody else |
| PyManifold.ForgetCallback | python/pex/manifold.py:45-63 | forgetting a proxy removes exactly its pairs from the relation, drops its reverse entry, pops topics left empty and keeps every other proxy's entry |
| PyManifold.Unsubscribe | python/pex/manifold.py:33-34 | unsubscribing a callback leaves it on no topic |
| PyManifold.ValidExtensional | python/pex/manifold.py:28-63 | two consistent manifolds that subscribe the same pairs are identical, so the relation alone determines both maps |
| PyManifold.SubscribeIdempotent | python/pex/manifold.py:28-31 | subscribing the same proxy to the same topic twice has the effect of once |
| PyManifold.ForgetUnknownIsNoOp | python/pex/manifold.py:53-58 | forgetting a proxy that is subscribed nowhere changes neither map |
| PyManifold.ForgetTwice | python/pex/manifold.py:45-63 | forgetting is idempotent |
| PyManifold.SubscribeThenForget | python/pex/manifold.py:28-63 | subscribing a fresh proxy and then forgetting it restores the manifold exactly |
| PyManifold.PublishIsolated | python/pex/manifold.py:36-43 | publishing one topic never reaches a proxy subscribed only to other topics |
| PyManifold.Add | python/pex/manifold.py:137-139 | adding a callback registers its proxy and leaves every other proxy's membership unchanged |
| PyManifold.Discard | python/pex/manifold.py:125-135 | forgetting a callback unregisters its proxy, whether or not it was registered, and leaves the others |
| PyManifold.Invoke | python/pex/manifold.py:141-143 | calling the set passes the value once to each registered proxy and to no other |
| PyManifold.AddIdempotentDiscardSilences | python/pex/manifold.py:125-143 | adding a callback twice is the same as once, and a discarded callback is not called |
| PyValue.DefaultFilterIsIdentity | python/pex/value.py:214-221 | the default filters on set and on get return their argument unchanged |
| PyValue.EmptyNet | python/pex/value.py:57-59 | the two class-wide value manifolds start empty, which satisfies the wiring invariant |
| PyValue.CreateModel | python/pex/value.py:63-86 | creating a model node fails with `RuntimeError` exactly when its name is live; otherwise it claims the name, holds the initial value unfiltered with the default filter and no callbacks, and keeps the wiring invariant |
| PyValue.CreateInterface | python/pex/value.py:176-182 | an interface node of the requested class is added on model `m`, under its name, with default filters and no callbacks; the live names, the model nodes, the model side and every existing interface node are unchanged, and the wiring invariant holds |
| PyValue.NewInterfaceFollowsModel | python/pex/value.py:123-194 | a new interface node reads its model's value, and hears each later `Set` of that model with the value the model then holds |
| PyValue.GetInterfaceNode | python/pex/value.py:328-333 | the default interface of a model node is a plain read-write `InterfaceValue` on that model, under its name |
| PyValue.InterfaceGet | python/pex/value.py:193-194 | reading an unfiltered interface node returns the value its model node holds |
| PyValue.Connect | python/pex/value.py:92-93 | connecting a callback adds it to that node's local set, keeps the node's other callbacks and fields, and changes no other node, neither manifold and no live name |
| PyValue.ConnectIsSetInsertion | python/pex/value.py:92-93 | connecting a callback twice is connecting it once, two callbacks may be connected in either order, and connecting changes no delivery of a later `Set` |
| PyValue.Store | python/pex/value.py:139-140 | storing a value changes only that model node's value |
| PyValue.Deliveries | python/pex/value.py:82-89 | publishing a value under a name reaches exactly the interface nodes of that name, each with the value passed through its filter on get |
| PyValue.SetWithoutNotify | python/pex/value.py:371-373 | writing without notifying stores the value through the model's filter on set, the value itself for a model without a filter, and changes no other node |
| PyValue.Notify | python/pex/value.py:142-143 | notifying delivers the stored value to exactly the interface nodes of that model, each through its filter on get |
| PyValue.ModelSet | python/pex/value.py:135-137 | `Set` on a model node stores the (filtered) value, runs none of the model's own callbacks and publishes the stored value once to its interface nodes |
| PyValue.SetUnfiltered | python/pex/value.py:375-376 | `SetUnfiltered` on a filtered model stores the value as given and publishes it to the interface nodes |
| PyValue.ModelSideSubscriber | python/pex/value.py:71-86 | under the wiring the constructors make, the only model-side subscriber of an interface node's name is its own model node |
| PyValue.ModelReceive | python/pex/value.py:123-130 | a model node receiving a value stores it through its filter on set, runs its own callbacks once with the stored value and republishes it to every interface node, the sender included |
| PyValue.InterfaceSet | python/pex/value.py:304-305 | `Set` on a writable interface node reaches its model through both filters on set, the model's callbacks fire once, every interface node of that model (the sender included) hears the stored value through its own filter on get and no other node does, and every other model node is unchanged |
| PyValue.InterfaceSetEchoes | python/pex/value.py:200-201 | with default filters, `Set(v)` on an interface node makes every interface node of the same model receive `v` and read `v` back |
| PyValue.AttachModelFilter | python/pex/value.py:355-360 | attaching a filter on set to a filtered model installs it and leaves the stored value as it was |
| PyValue.AttachInterfaceFilters | python/pex/value.py:255-302 | attaching a filter on get or on set to a filtered interface node installs exactly the filters given and keeps the others |
| PyValue.Restore | python/pex/value.py:262-266 | when a filter's referent is finalised the slot falls back to the default filter; a slot holding another filter is kept |
| PyValue.Finalise | python/pex/value.py:63-86 | finalising a referent drops it from every callback set and both manifolds and keeps every other callback and subscription; filters that referred to it become the default and all other filters are kept; it releases a model node's name and changes no stored value |
| PyValue.FinaliseFreesName | python/pex/tube.py:43-49 | once the model node of a name is finalised, a model node of that name can be created again |
| PyValue.ContextCommits | python/pex/value.py:389-413 | a `ValueContext` left normally remembers its model's value from entry but keeps the last value written, filtered, and notifies exactly the model's interface nodes once with it |
| PyValue.ContextSet | python/pex/value.py:396-397 | `ValueContext.Set` writes through the model's filter on set and changes no wiring |
| PyValue.ContextSets | python/pex/value.py:396-397 | any number of `ValueContext.Set` calls change no other model node and no wiring |
| PyValue.ContextSetsLast | python/pex/value.py:396-397 | after a non-empty run of `ValueContext.Set` calls the model holds the last value written, through its filter on set |
| PyValue.ExitContext | python/pex/value.py:402-413 | a normal exit notifies once with the stored value; an exceptional exit restores the remembered value exactly and notifies nobody (corrected form) |
| PyValue.ContextRollback | python/pex/value.py:389-413 | whatever `Set` calls ran inside it, a `ValueContext` left by an exception gives back the net it started from, with no notification (corrected form) |
| PyValue.ExitContextAsWritten | python/pex/value.py:402-413 | the exceptional exit as written stores the remembered value passed through the filter on set once more; the normal exit is the same as the corrected one |
| PyValue.ContextRollbackAsWrittenReapplies | python/pex/value.py:371-373 | a filtered model holding 0 with filter `x + 1`, set to 5 in a context that raises, ends at 1 as written and at 0 when corrected |
| PyValue.MultiSet | python/pex/value.py:427-429 | `MultipleValueContext.Set` records the node with the value it held just before, then writes through its filter on set, touching no other node |
| PyValue.MultiSets | python/pex/value.py:421-429 | a run of `Set` calls records one entry per call, in call order, each naming the node written |
| PyValue.MultiExitNotify | python/pex/value.py:440-444 | a normal exit notifies once per recorded `Set`, in recording order |
| PyValue.MultiExitRestoreAsWritten | python/pex/value.py:445-449 | the exceptional exit as written writes each recorded prior value back without notifying and changes no wiring |
| PyValue.MultiRestoreLastWins | python/pex/value.py:445-449 | restoring in recording order leaves each touched node at the filtered prior value of its last record, and untouched nodes as they were |
| PyValue.MultiSetsRecordsPrior | python/pex/value.py:427-429 | when every node is written once, each record holds the value its node had before the context |
| PyValue.MultiSetsValue | python/pex/value.py:427-429 | when every node is written once, each ends up holding its write passed through its filter on set |
| PyValue.MultiSetsUntouched | python/pex/value.py:427-429 | a node no write names keeps its state through the run |
| PyValue.MultiRollbackTouchedOnce | python/pex/value.py:445-449 | as written, the exceptional exit does restore every unfiltered node when no node is written twice |
| PyValue.MultiRollbackTwiceKeepsIntermediate | python/pex/value.py:445-449 | as written, setting one unfiltered node to `a` and then `b` and raising leaves it at `a`, not at its value on entry |
| PyValue.MultiSetsTwiceRecords | python/pex/value.py:427-429 | two writes to one unfiltered node record its entry value and then the first written value |
| PyValue.MultiExitRestore | python/pex/value.py:445-449 | the corrected exceptional exit stores each recorded prior value as is, newest first, and changes no wiring |
| PyValue.MultiRollback | python/pex/value.py:421-449 | with the corrected exit, a `MultipleValueContext` left by an exception gives back exactly the net it started from, whatever nodes it wrote, filtered or not and however often |
| PyValue.StoreUndoesSet | python/pex/value.py:427-429 | storing a node's recorded prior value after one `Set` on it gives back the net |
| PySignal.EmptySignals | python/pex/signal.py:28-30 | the two class-wide signal manifolds start empty, which satisfies the wiring invariant |
| PySignal.CreateSignal | python/pex/signal.py:35-51 | creating a model signal fails with `RuntimeError` exactly when its name is live; otherwise the node is added and its handler is subscribed on its own side under its name |
| PySignal.GetInterfaceNode | python/pex/signal.py:61-62 | `GetInterfaceNode` adds an interface signal of the same name and keeps the wiring invariant |
| PySignal.Connect | python/pex/signal.py:67-68 | connecting a callback subscribes it under the node's name on the node's own side and changes nothing on the other side |
| PySignal.UserCallbacks | python/pex/manifold.py:36-43 | the user callbacks a publish reaches are the subscribers of the name that are not node handlers |
| PySignal.ModelHandlers | python/pex/signal.py:35-51 | the node handlers subscribed on the model side under a name are exactly the model signals of that name |
| PySignal.Trigger | python/pex/signal.py:64-80 | `Signal()` on a model node reaches the interface-side user callbacks of its name and no model-side ones; on an interface node it reaches the model-side user callbacks of its name |
| PySignal.InterfaceTriggerEchoesThroughModel | python/pex/signal.py:76-80 | an interface signal reaches interface-side callbacks exactly when a model signal of its name is live, because only the model handler echoes, so there is no loop |
| PySignal.SignalRoundTrip | python/pex/signal.py:64-80 | a callback connected to one interface node is reached by `Signal()` on another interface node of the same name and by the model node |
| PySignal.SignalIsolated | python/pex/signal.py:64-65 | signalling one name never fires a callback subscribed only under other names |
| PySignal.DuplicateModelSignalRefused | python/pex/tube.py:33-35 | a second live model signal of the same name is refused with `RuntimeError` |
| PySignal.ForgetUserCallback | python/pex/manifold.py:45-63 | finalising a user callback removes its subscriptions from both manifolds and keeps every other subscription |
| PySignal.ForgottenCallbackSilent | python/pex/manifold.py:45-63 | a finalised callback is no longer reached, and every other callback is reached exactly as before |
| PyChooser.NewChooser | python/pex/chooser.py:30-42 | with choices, the selection is the first index of the value and a value that is absent raises `ValueError`; without choices the value becomes the only choice, selected |
| PyChooser.Create | python/pex/chooser.py:47-56 | a chooser created from one value holds it as its only choice and reads it back |
| PyChooser.Get | python/pex/chooser.py:64-65 | `Get` follows Python list indexing: a negative selection counts from the end, and one outside the list raises `IndexError` |
| PyChooser.SetWithoutNotify | python/pex/chooser.py:67-79 | after setting a value the chooser reads it back and selects its first occurrence; the choices are kept when they hold it, and otherwise it is appended and selected |
| PyChooser.Notify | python/pex/chooser.py:85-87 | notifying publishes the selection first and then the choices |
| PyChooser.Set | python/pex/chooser.py:81-83 | `Set` is the silent set followed by one notification, and the chooser then reads the value |
| PyChooser.SetChoices | python/pex/chooser.py:89-97 | replacing the choices keeps the selected value when it is among the new choices and otherwise selects index 0; the choices are published before the selection; a selection that cannot be read raises `IndexError` |
| PyChooser.ChooserStaysValid | python/pex/chooser.py:30-97 | construction and `Set` keep the selection inside the choices; `SetChoices` keeps it inside exactly when the new choices are not empty |
| PyChooser.SetIdempotent | python/pex/chooser.py:67-79 | setting the same value twice is the same as once |
| PyChooser.SetSameChoices | python/pex/chooser.py:89-97 | replacing the choices by themselves leaves the chooser as it was when it selects a first occurrence |
| PyChoices.NatToString | python/pex/choices.py:8-9 | the text of a natural number is a non-empty run of decimal digits without a leading zero |
| PyChoices.DefaultToString | python/pex/choices.py:8-9 | the default text of a value starts with a minus sign exactly when the value is negative |
| PyChoices.NatToStringRoundTrip | python/pex/choices.py:8-9 | reading the digits of a number's text back gives the number |
| PyChoices.DefaultToStringInjective | python/pex/choices.py:8-9 | two values with the same default text are equal |
| PyChoices.NodeNamesDistinct | python/pex/choices.py:28-41 | the value node and the choices node of a group have different names, and different groups never share a node name |
| PyChoices.CreateModelNode | python/pex/choices.py:17-47 | creating a group fails with `RuntimeError` exactly when either of its two node names is live; otherwise it claims both, holds the initial value, and the choices default to that value alone |
| PyChoices.ConverterFinalised | python/pex/choices.py:49-53 | when the converter's referent is finalised the group falls back to the default converter; any other converter, and everything else, is kept |
| PyChoices.GetInterfaceNode | python/pex/choices.py:55-60 | the interface group uses the same node names and the same converter, so it renders the choices identically |
| PyChoices.GetChoicesAsStrings | python/pex/choices.py:65-66 | one text per choice, in order, each made by the group's converter |
| PyChoices.ValueStringAmongChoiceStrings | python/pex/choices.py:62-69 | when the value is among the choices its text is among the choices' texts; with the default converter the converse holds as well |
| PyChoices.CreatedValueInChoices | python/pex/choices.py:34-37 | a group created without explicit choices has its value among its choices |
| PyRange.Clamp | python/pex/range.py:66-68 | with ordered limits the clamped value lies between them, is the value itself when inside, and is the nearer limit otherwise |
| PyRange.FromPrototype | python/pex/range.py:24-31 | a range model built from a prototype holds the prototype's three fields |
| PyRange.Create | python/pex/range.py:33-43 | `Create(name, value)` starts value, minimum and maximum at the value, which is ordered |
| PyRange.SetWithoutNotify | python/pex/range.py:72-77 | a silent set leaves the limits alone, keeps the model ordered and stores the value clamped between them |
| PyRange.Set | python/pex/range.py:65-70 | `Set` stores the clamped value and publishes exactly that value once |
| PyRange.SetMinimum | python/pex/range.py:45-53 | the new minimum is the request capped at the maximum; a value below it is raised to it and published before the minimum; the order is kept |
| PyRange.SetMaximum | python/pex/range.py:55-63 | the new maximum is the request raised to the minimum; a value above it is lowered to it and published before the maximum; the order is kept |
| PyRange.SetInsideKeepsValue | python/pex/range.py:65-77 | a value inside the limits is stored unchanged, and setting the same value again changes nothing |
| PyRange.SetLimitsInOrder | python/pex/range.py:45-63 | `SetMinimum(lo)` then `SetMaximum(hi)` with `lo <= hi` gives exactly those limits, keeps the order, and keeps a value already between them |
| PyRange.AttachFilterOnGet | python/pex/range.py:120-126 | a filter on get is attached to all three interface nodes and the filter on set is kept |
| PyRange.AttachFilterOnSet | python/pex/range.py:129-133 | a filter on set is attached to the value node only |
| PyRange.InterfaceGet | python/pex/range.py:94-98 | without filters, the interface reads exactly the model's three values |
| PyRange.MonotoneViewKeepsOrder | python/pex/range.py:120-126 | a monotone filter on get shows the limits in order around the value |
| PyRange.InterfaceSetValue | python/pex/range.py:92-98 | a write to the interface's value node reaches the plain model value node through the filter on set and is stored and published as is |
| PyRange.InterfaceSetBypassesClamp | python/pex/range.py:92-98 | an interface write outside the limits is stored unclamped, while a model `Set` of the same value is clamped |
| PyRange.RangeFactory | python/pex/range.py:136-152 | the factory's prototype builds a model holding the three given values |
| PyTransform.LastDot | python/pex/transform_common.py:50-51 | the last dot of a text, or -1 when it has none: no dot follows the index returned |
| PyTransform.GetClassNameInjective | python/pex/transform_common.py:50-51 | two classes with dot-free class names and the same qualified name have the same module and the same name |
| PyTransform.GetDecoratedClass | python/pex/transform_common.py:66-69 | the lookup succeeds exactly when the series holds the class's qualified name and returns that entry; otherwise it raises `KeyError`; a missing series gains an empty entry and no other series changes |
| PyTransform.LookupAgreesWithIsPrototype | python/pex/transform_common.py:66-77 | the lookup succeeds exactly for the classes `IsPrototype` accepts, and the empty entry it may add changes no later `IsPrototype` answer or lookup |
| PyTransform.CacheDecorated | python/pex/transform.py:248-250 | after decoration the prototype's qualified name looks up the decorated class in its series, and every other lookup answers as before |
| PyTransform.GetHasName | python/pex/transform_common.py:33-47 | a maker takes a name exactly when its first parameter is named `name`; a maker without parameters raises `StopIteration` |
| PyTransform.ClassMakerHasNoName | python/pex/transform_common.py:36-43 | a class maker is judged by its unbound `__init__`, whose first parameter is `self`, so it never takes a name |
| PyTransform.MakeNodeName | python/pex/transform.py:84-90 | a node name is the instance name when one is given (an empty one included), else the class name, then a dot, then the field name |
| PyTransform.MakeNodeNameInjective | python/pex/transform.py:84-90 | under one prefix, different fields get different node names |
| PyTransform.MakeAttribute | python/pex/transform.py:149-170 | a member whose type is already decorated in the series is built from the cached class with its bare name; otherwise the maker builds it, with a node name exactly when the maker takes one |
| PyTransform.NewTransform | python/pex/transform.py:35-50 | a transform keeps its prototype, init flag and series, and fails exactly when the maker cannot be inspected |
| PyTransform.TransformModel | python/pex/transform.py:255-268 | `TransformModel` is a transform in the `model` series |
| PyTransform.TransformInterface | python/pex/transform.py:271-284 | `TransformInterface` is a transform in the `interface` series |
| PyTransform.Decorate | python/pex/transform.py:74-252 | decorating selects exactly the class vars that pass the four skip rules and builds one attribute for each; the instance vars are the prototype members minus the overrides; `__init__` is added only with `init`; `GetPrototype` and `LoadPrototype` only in the model series; the class is cached |
| PyTransform.SelectionRules | python/pex/transform.py:133-153 | no private name, prototype member, overridden name, function or method becomes a class var; class vars and instance vars never share a name |
| PyTransform.TransformedInstanceVarsCarry | python/pex/transform.py:120-123 | decorating a class that was itself transformed keeps its instance vars as instance vars unless they are overridden |
| PyTransform.CachedMemberReused | python/pex/transform.py:155-170 | once a prototype is decorated in a series, a later decoration in that series builds a member of that type from the cached class |
| PyTransform.SynthesizedInitFollowsTransform | python/pex/transform.py:35-71 | in either series, a transform made with `init` gives the class a constructor that initialises its nodes exactly when handed a prototype, and one made without `init` leaves the class's own constructor |
| PyTransform.GetMembers | python/pex/transform.py:189-210 | `GetPrototype` collects exactly one value per field name, reading a member with its own `Get` (a value node or a compound node) before trying `GetPrototype` |
| PyTransform.GetPrototype | python/pex/transform.py:187-212 | `GetPrototype` exists only in the model series (elsewhere it is an `AttributeError`) and returns a record with one member per field |
| PyTransform.LoadWrites | python/pex/transform.py:221-237 | loading issues one `Set` per member object that has one, with the compound's adjustment for a compound node, and otherwise descends into the nested instance, in field order |
| PyTransform.LoadPrototype | python/pex/transform.py:214-245 | `LoadPrototype` exists only in the model series; it writes every node inside one `MultipleValueContext`, keeps the wiring, and on exit notifies each written node once, in writing order |
| PyTransform.LoadWritesCover | python/pex/transform.py:221-237 | the writes of a load cover every node of the instance with its member's value |
| PyTransform.CoveredHolds | python/pex/transform.py:221-243 | when every node is distinct and unfiltered, covering writes leave each node holding its member's value |
| PyTransform.GetMembersOfHolding | python/pex/transform.py:194-208 | reading back nodes that hold the members of a record gives that record |
| PyTransform.LoadThenGetPrototype | python/pex/transform.py:187-245 | `LoadPrototype` followed by `GetPrototype` gives back the loaded record, when the instance's nodes are distinct unfiltered model values and each compound member accepts the value loaded into it |
| PyTransform.LoadThenGetCompound | python/pex/transform.py:194-233 | a compound member with its own `Get`/`Set`, such as a range, is written through its own `Set` as one value and read back with its own `Get`, as its adjustment of the loaded value, and its node is notified once |
| PyTransform.PrototypeMethodsFollowSeries | python/pex/transform.py:187-245 | a model transform's class has both `GetPrototype` and `LoadPrototype`, and an interface transform's class has neither |
| PyConverter.ParseInt | python/pex/wx/utility/converter.py:59-61 | `Convert` succeeds exactly on an optional sign followed by at least one digit and raises `ValueError` on anything else |
| PyConverter.ParseFormatted | python/pex/wx/utility/converter.py:34-61 | the default format of any integer converts back to that integer |
| PyConverter.Check | python/pex/wx/utility/converter.py:37-46 | `Check` fails exactly when the text is not an integer; the result never exceeds a set high bound, is at least a set low bound unless the bounds cross, is the parsed number when that is within the bounds, and is paired with its own formatted text |
| PyConverter.CheckStable | python/pex/wx/utility/converter.py:37-65 | with the default format and ordered bounds, checking the text `Check` produced gives a number that compares equal and the same text |
| PyShortcut.NewKey | python/pex/wx/shortcut.py:49-53 | an int is kept as the key code and a one-character string gives its code point; `ord` of a string of any other length raises `TypeError` |
| PyShortcut.KeyRepr | python/pex/wx/shortcut.py:18-58 | a special key shows its wx name; any other code shows as the one character with that code point, and `chr` raises `ValueError` for codes outside the code point range; a surrogate code, which Python's `chr` accepts, is also modelled as `ValueError` |
| PyShortcut.KeyRoundTrip | python/pex/wx/shortcut.py:49-61 | a key made from a character equals the key made from its code; it shows as that character unless the code is a special key's, which shows its name |
| PyShortcut.ModifierNames | python/pex/wx/shortcut.py:36-74 | `CTRL`, `SHIFT` and `ALT` are listed exactly when their flag bit is set, in the order CMD, SHIFT, ALT |
| PyShortcut.ModifierStringDeterminesFlags | python/pex/wx/shortcut.py:64-74 | the modifier string is empty exactly when none of the three flags is set, and two bitfields give the same string exactly when they agree on the three flags |
| PyShortcut.ModifierNamesFromString | python/pex/wx/shortcut.py:71-74 | each ordered combination of modifier names joins with `+` to a different string |
| PyShortcut.NewShortcutMethods | python/pex/wx/shortcut.py:98-104 | the methods keep the shortcut's modifier and descriptions, take the given control id, and fail exactly when the key text is not one character |
| PyShortcut.GetMenuItemLabel | python/pex/wx/shortcut.py:114-120 | the label fails exactly when the key cannot be shown |
| PyShortcut.LabelParts | python/pex/wx/shortcut.py:114-120 | a tab-free description is read back before the first tab, and after it comes `MODS+KEY`, or just the key when no modifier is set |
| PyShortcut.GetAcceleratorTableEntry | python/pex/wx/shortcut.py:122-123 | the entry is the modifier bitfield, the key code and the control id |
| PyShortcut.AcceleratorFromShortcut | python/pex/wx/shortcut.py:98-123 | the accelerator entry of a shortcut with a one-character key is its modifier, that character's code point and the control id |
| Find.FindIndex | pex/find_index.h:47-62 | the result is -1 exactly when the value is absent; otherwise it is the index of its first occurrence |
| Find.RequireIndex | pex/find_index.h:65-75 | `RequireIndex` throws `out_of_range` exactly when the value is absent, and otherwise gives the index of its first occurrence |
| Find.FindIndexUnique | pex/find_index.h:54-61 | an index that holds the value with no earlier occurrence is the one found |
| Find.FindIndexAppend | pex/find_index.h:54-61 | appending an element keeps an existing first occurrence, finds the new element at the old length when the value was absent, and otherwise still finds nothing |
| Connections.SearchKey | pex/detail/connection.h:44-50 | the observer-only constructor gives a connection of that observer with a value-initialised callable |
| Connections.CompareIgnoresCallable | pex/detail/connection.h:69-74 | comparison looks at the observer addresses only: changing the callables changes no answer, the search key is equivalent to every connection of its observer, and equivalence is neither side being less |
| Connections.UpperBound | pex/detail/notify_many.h:26-30 | the upper bound is the first position whose observer is above the given one, with every earlier observer at or below it |
| Connections.LowerBound | pex/detail/notify_many.h:37-40 | the lower bound is the first position whose observer is not below the given one |
| Connections.BoundsOfSorted | pex/detail/notify_many.h:37-40 | on a sorted list the lower bound is at most the upper bound, and the positions between them are exactly those of the observer's connections |
| Connections.UpperBoundUnique | pex/detail/notify_many.h:26-30 | any split point with observers at or below before it and above after it is the upper bound |
| Connections.UpperBoundSearch | pex/detail/notify_many.h:26-30 | the binary search over a sorted list finds the upper bound |
| Connections.Connect | pex/detail/notify_many.h:19-32 | `Connect` inserts the new connection at the upper bound, keeping everything before and after it, so the list gains exactly that connection |
| Connections.ConnectKeepsSorted | pex/detail/notify_many.h:19-32 | the insert keeps a sorted list sorted, with the new connection after every earlier connection of observers at or below its own |
| Connections.ConnectAt | pex/detail/notify_many.h:26-31 | after the insert each position holds the old entry before the insert point, the new entry at it, and the old entry one earlier after it |
| Connections.WithoutDropsObserver | pex/detail/notify_many.h:34-43 | the reference for removal keeps exactly the connections of other observers |
| Connections.EqualRangeErase | pex/detail/notify_many.h:37-42 | erasing the equal range of a sorted list removes exactly the observer's connections and keeps the others in order |
| Connections.EraseBlock | pex/detail/notify_many.h:42 | erasing the one block that holds all of an observer's connections leaves the others in order |
| Connections.SortedErase | pex/detail/notify_many.h:42 | erasing a range keeps a sorted list sorted |
| Connections.Disconnect | pex/detail/notify_many.h:34-43 | `Disconnect` removes every connection of the observer and nothing else, keeps the list sorted, and changes nothing when the observer has none |
| Connections.CountConnect | pex/detail/notify_many.h:19-32 | `Connect` adds one connection of its observer, none of any other, and keeps duplicates |
| Connections.CountWithout | pex/detail/notify_many.h:34-43 | after removal the observer has no connection and every other observer keeps all of its own |
| Connections.NotifyMany | pex/detail/notify_many.h:74-80 | `Notify_` calls every connection once, in list order, with the same value |
| Connections.ConnectDisconnect | pex/detail/notify_many.h:19-48 | connecting adds one to the notifier count; disconnecting after a connect is the same as disconnecting before it; after `Disconnect` no notification reaches the observer |
| Connections.WithoutInsert | pex/detail/notify_many.h:19-43 | inserting a connection of an observer anywhere is undone by removing that observer's connections |
| Connections.ConnectOne | pex/detail/notify_one.h:45-68 | a single-slot `Connect` replaces whatever the slot held with the new observer and callable |
| Connections.DisconnectOne | pex/detail/notify_one.h:98-127 | `Disconnect` empties the slot; a debug build's assertion fails exactly when the held connection belongs to another observer |
| Connections.GetCallable | pex/detail/notify_one.h:152-160 | `GetCallable_` throws `logic_error` exactly when the slot is empty |
| Connections.NotifyOne | pex/detail/notify_one.h:195-202 | the slot makes one call, to its connection with the given value, exactly when it holds one, and none otherwise |
| Connections.DestroyOne | pex/detail/notify_one.h:70-96 | destroying a slot that still holds a connection fails its assertion, and destroying an empty one does not |
| Connections.LastConnectionWins | pex/detail/notify_one.h:45-127 | a second `Connect` replaces the first, so only the last observer is notified; disconnecting it lets the slot be destroyed, while destroying it connected fails |
| ModelValues.FilterOnSetOptional | pex/model_value.h:200-240 | on an optional type an empty value stays empty and a held value is passed through the filter's setter |
| ModelValues.FilterOnGetOptional | pex/model_value.h:242-282 | on an optional type an empty value stays empty and a held value is passed through the filter's getter |
| ModelValues.OptionalFiltersPassEmpty | pex/model_value.h:200-282 | whatever the filter, an empty optional passes both directions unchanged, and without a filter every value does |
| ModelValues.NewModel | pex/model_value.h:87-117 | each constructor stores its value, or `Type{}`, passed through the setter filter, and starts with no connections |
| ModelValues.SetWithoutNotify | pex/model_value.h:183-193 | `SetWithoutNotify_` stores the filtered value and changes neither the filter nor the connections |
| ModelValues.DoNotify | pex/model_value.h:195-198 | `DoNotify_` calls every connection once, in order, with the stored value |
| ModelValues.Set | pex/model_value.h:140-144 | `Set` stores the filtered value and then calls every connection once, in order, with that filtered value |
| ModelValues.SetFilter | pex/model_value.h:163-166 | `SetFilter` replaces the filter and keeps the stored value and the connections |
| ModelValues.SetFilterDoesNotRefilter | pex/model_value.h:163-166 | after `SetFilter` the stored value need not be anything the new filter could produce, since it is not filtered again |
| ModelValues.ModelConnect | pex/detail/notify_many.h:19-32 | connecting to a model inserts into its sorted list and changes neither its filter nor its value |
| ModelValues.ModelDisconnect | pex/detail/notify_many.h:34-43 | disconnecting from a model removes the observer's connections and changes neither its filter nor its value |
| ModelValues.SetThenGet | pex/model_value.h:140-149 | what `Set` stores does not depend on the previous value, and every observer is called with the value `Get` returns afterwards |
| ModelValues.DirectGet | pex/model_value.h:437-441 | `Direct::Get` fails its has-value requirement exactly without a model, and otherwise reads the model |
| ModelValues.DirectSet | pex/model_value.h:443-449 | `Direct::Set` fails its has-value requirement exactly without a model, and otherwise is the model's `Set` |
| ModelValues.DirectConnect | pex/model_value.h:451-463 | `Direct::Connect` does nothing without a model and otherwise connects to that model only |
| ModelValues.DirectConnectOnce | pex/model_value.h:465-477 | `Direct::ConnectOnce` does nothing without a model and otherwise applies the model's `ConnectOnce` to that model only |
| ModelValues.DirectDisconnect | pex/model_value.h:479-486 | `Direct::Disconnect` does nothing without a model and otherwise disconnects from that model only |
| ModelValues.GetModel | pex/model_value.h:512-520 | `GetModel_` throws `logic_error` exactly when there is no model |
| ModelValues.DirectWithoutModel | pex/model_value.h:408-486 | a default `Direct` changes nothing on connect or disconnect and fails to read, write or give its model |
| ModelValues.ModelConnectDisconnect | pex/detail/notify_many.h:19-43 | on a model, disconnecting after a connect is the same as disconnecting before it, and leaves no connection of the observer |
| ModelValues.DirectConnectDisconnect | pex/model_value.h:451-486 | through a bound `Direct`, disconnecting undoes connecting, and the model keeps no connection of the observer |
| ModelValues.Begin | pex/transaction.h:24-30 | a new transaction is armed and captures the model's current value |
| ModelValues.BeginWith | pex/transaction.h:32-38 | the two-argument constructor captures the current value and then stores the new one without notifying |
| ModelValues.TransactionGet | pex/transaction.h:53-57 | `Get` reads the model, and throws once the transaction is committed |
| ModelValues.TransactionSet | pex/transaction.h:59-63 | `Set` stores without notifying, and throws once the transaction is committed |
| ModelValues.Commit | pex/transaction.h:65-72 | `Commit` notifies every observer once with the current value and disarms; a second `Commit` does nothing |
| ModelValues.EndTransaction | pex/transaction.h:74-81 | destroying an armed transaction stores the captured value back without notifying; a committed one changes nothing |
| ModelValues.TransactionSets | pex/transaction.h:59-63 | a run of `Set`s changes neither the filter nor the connections |
| ModelValues.TransactionSetsLast | pex/transaction.h:59-63 | after a run of `Set`s the model holds the last value written, filtered |
| ModelValues.TransactionReverts | pex/transaction.h:10-81 | an uncommitted transaction leaves the model exactly as it found it, whatever it wrote, when the filter does not move its own outputs |
| ModelValues.TransactionRevertRefilters | pex/transaction.h:74-81 | with a filter that moves its own outputs the revert does not restore the captured value, because it is filtered a second time |
| ModelValues.TransactionCommits | pex/transaction.h:59-81 | a committed transaction notifies every observer once, in order, with the last value written; its destruction keeps that value and a second commit sends nothing |
| ModelValues.ReferenceSet | pex/reference.h:62-65 | `Reference::Set` stores the filtered value, keeps the filter and the connections, and at once calls every connection once, in order, with the stored value |
| ModelValues.ReferenceSets | pex/reference.h:62-65 | a run of `Reference::Set`s reaches the same model as the writes alone and notifies once per write |
| ModelValues.DeferSet | pex/reference.h:98-101 | `Defer::Set` stores the filtered value, keeps the filter and the connections, and calls nobody |
| ModelValues.DeferSession | pex/reference.h:90-107 | a `Defer`'s writes leave the model holding the last one, filtered (or untouched when there were none), and its destructor then calls every connection once, in order, with that value |
| ModelValues.DeferNotifiesOnce | pex/reference.h:62-107 | however many writes a `Defer` takes its observers hear once, with the last value, while a `Reference` given the same writes ends in the same model but notifies once per write |
| ModelValues.ConstReferenceGet | pex/reference.h:118-144 | a `ConstReference` exists only for an unfiltered model and reads its stored value |
| ControlValues.Unset | pex/control_value.h:122-141 | a copy from another filter type starts without a member filter instance, and any other kind of filter is kept as it is |
| ControlValues.FilterSet | pex/control_value.h:254-270 | the setter fails its has-value requirement exactly for a member filter without instance; with no filter the value passes unchanged, otherwise the filter's setter applies |
| ControlValues.FilterGet | pex/control_value.h:272-288 | the getter fails its has-value requirement exactly for a member filter without instance; with no filter the value passes unchanged, otherwise the filter's getter applies |
| ControlValues.DefaultControl | pex/control_value.h:86 | a default control has no upstream, no filter instance and no observers |
| ControlValues.NewControl | pex/control_value.h:88-112 | a control built on a model points at it and connects to it exactly when it may read, changing no other model |
| ControlValues.DestroyControl | pex/control_value.h:114-117 | the destructor removes every connection of the control from its upstream, which keeps its value and every other observer's connections; other models are untouched, and without upstream nothing changes |
| ControlValues.CopyControl | pex/control_value.h:122-173 | a copy shares the upstream and access, copies the filter only from the same filter type, and connects exactly when it may read |
| ControlValues.AssignControl | pex/control_value.h:143-189 | assignment disconnects from the old upstream first, takes the other upstream and, for the same filter type, its filter, then connects when reading; the control keeps its own observers |
| ControlValues.SetControlFilter | pex/control_value.h:191-198 | `SetFilter` gives a member filter its instance and changes nothing else |
| ControlValues.ControlGet | pex/control_value.h:200-214 | `Get` succeeds exactly with an upstream and a usable filter, and is the getter's view of the model's value |
| ControlValues.ControlSet | pex/control_value.h:216-230 | `Set` succeeds exactly with an upstream and a usable filter, and is the model's `Set` of the setter's output |
| ControlValues.ControlSetWithoutNotify | pex/control_value.h:233-247 | `SetWithoutNotify_` stores the setter's output in the model without notifying and fails only for a missing filter instance |
| ControlValues.ControlOnUpstreamChanged | pex/control_value.h:290-305 | a model change reaches every observer of the control once, in order, with the getter's view of the new value |
| ControlValues.ReaderLifecycle | pex/control_value.h:88-117 | a reading control built on a model holds exactly one connection there, and its destruction leaves the model as a disconnect would and with none |
| ControlValues.ReaderDestroyed | pex/control_value.h:88-117 | destroying a reading control just built leaves its model as a plain disconnect of it would |
| ControlValues.WriterNeverConnects | pex/control_value.h:88-117 | a write-only control never connects to its model, and its destruction only disconnects |
| ControlValues.AssignConnectsOnce | pex/control_value.h:143-189 | reassigning a reading control leaves exactly one connection of it on the new model and none on an old, different one, so one change never reaches it twice |
| ControlValues.ControlHearsGet | pex/control_value.h:200-214 | after any write to the model, what the control passes to its observers is what its `Get` returns |
| ControlValues.ControlSetEchoes | pex/control_value.h:216-305 | a control's own `Set` comes back to every observer of the model with the stored value, the model's filter applied to the control's setter output, and the control passes on what `Get` returns |
| ControlValues.IsBound | pex/interface_value.h:208-223 | an interface is bound exactly when it has a model and, for a member filter, a filter instance |
| ControlValues.DefaultInterface | pex/interface_value.h:65 | a default interface is unbound and has no observer |
| ControlValues.NewInterface | pex/interface_value.h:67-99 | an interface built on a model points at it and connects to it; it is bound exactly when its filter is usable |
| ControlValues.DestroyInterface | pex/interface_value.h:101-110 | the destructor disconnects from the model, and fails its assertion exactly when the single observer is still connected |
| ControlValues.CopyInterface | pex/interface_value.h:112-145 | a copy from an interface of another observer or filter type shares the model, copies the filter only from the same filter type, starts without an observer and connects when a model is set |
| ControlValues.AssignInterface | pex/interface_value.h:147-197 | assignment from an interface of another type disconnects from the old model when set, takes the other model, keeps its own filter unless the filter types match, and connects when a model is set |
| ControlValues.CopyInterfaceSameType | pex/interface_value.h:312-313 | a copy of the very same type takes the model, filter and observer slot member by member and leaves every model as it was |
| ControlValues.AssignInterfaceSameType | pex/interface_value.h:312-313 | an assignment of the very same type copies the same members, keeps the target's address, and disconnects and connects nothing |
| ControlValues.SameTypeCopyIsDeaf | pex/interface_value.h:112-145 | a same-type copy or assignment is not connected to the model, unlike a copy of another type, which is connected once; a copied observer makes the copy's destructor fail the debug assertion |
| ControlValues.InterfaceGet | pex/interface_value.h:225-237 | `Get` succeeds exactly when the interface is bound, and is the getter's view of the model's value |
| ControlValues.InterfaceSet | pex/interface_value.h:239-256 | `Set` succeeds exactly when the interface is bound, and is the model's `Set` of the setter's output |
| ControlValues.InterfaceOnModelChanged | pex/interface_value.h:294-309 | a model change reaches the single observer, if any, with the getter's view of the new value |
| ControlValues.InterfaceSetEchoes | pex/interface_value.h:239-309 | an interface's `Set` reaches every interface on the model, itself included, and each passes on what its own `Get` returns |
| ControlValues.InterfaceConnectedOnce | pex/interface_value.h:67-110 | an interface built on a model holds exactly one connection there, and its destruction succeeds and leaves the model as a disconnect would |
| Tubes.NewModelValue | pex/value.h:156-164 | a new `ModelValue` stores the given value, or `T{}`, without passing it through the filter, and has no callbacks |
| Tubes.ModelSet | pex/value.h:137-149 | `Set` stores `Filter::Call` of the value, or the value itself with a void filter, then calls every callback once, in order, with what was stored |
| Tubes.TubeConnect | pex/value.h:101-112 | `Tube::Connect` is the sorted insert at the upper bound and keeps the list sorted and the value unchanged |
| Tubes.TubeDisconnect | pex/value.h:114-123 | `Tube::Disconnect` removes every callback of the observer and keeps the list sorted and the value unchanged |
| Tubes.ConstructorDoesNotFilter | pex/value.h:137-164 | the constructor stores a value that `Set` would have changed through the filter as given |
| Tubes.NewInterfaceValue | pex/value.h:188-193 | an `InterfaceValue` connects to its model on construction and starts without callbacks |
| Tubes.CopyInterfaceValue | pex/value.h:200-205 | a copy tracks the same model, connects to it too, and starts without callbacks of its own |
| Tubes.DestroyInterfaceValue | pex/value.h:195-198 | the destructor removes every callback of the interface from the model, which keeps its value, filter and every other callback |
| Tubes.InterfaceValueGet | pex/value.h:214-224 | `Get` is the model's value, passed through the interface filter's getter when there is one |
| Tubes.InterfaceValueSet | pex/value.h:226-236 | `Set` stores the interface setter's output through the model's filter and calls every model callback once, in order, with the stored value; without filters `Get` reads back what was set |
| Tubes.InterfaceOnModelChanged | pex/value.h:239-253 | a model change reaches every callback of the interface once with the getter's view of the value |
| Tubes.InterfaceValueEchoes | pex/value.h:214-253 | a `Set` through one interface stores the filtered value, and every interface it reaches passes on what its own `Get` reads afterwards |
| Tubes.InterfaceValueLifecycle | pex/value.h:188-198 | building an interface value and destroying it leaves the model as a disconnect alone would, with no callback of it left |
| Signals.Trigger | pex/signal.h:31-34 | a model signal's `Trigger` calls every connection once, in order |
| Signals.TriggerReachesEach | pex/signal.h:31-34 | a trigger reaches each observer exactly once per connection it holds |
| Signals.TriggerTimes | pex/signal.h:31-34 | `n` triggers make `n` calls per connection |
| Signals.TriggerTimesCounts | pex/signal.h:31-34 | `n` triggers reach each observer `n` times per connection it holds |
| Signals.SignalConnect | pex/detail/notify_many.h:19-32 | connecting to a model signal is the sorted insert and keeps its list sorted |
| Signals.SignalDisconnect | pex/detail/notify_many.h:34-43 | disconnecting from a model signal removes exactly the observer's connections and keeps its list sorted |
| Signals.DefaultControlSignal | pex/signal.h:49 | a default control signal has no model and no observer |
| Signals.NewControlSignal | pex/signal.h:51-55 | a control signal built on a model is bound and connects to the model with its `OnModelSignaled_` |
| Signals.CopyControlSignal | pex/signal.h:74-81 | a copy from a control of another observer type fails its has-value requirement exactly when the other signal has no model, and otherwise connects to the same model |
| Signals.CopyControlSignalSameType | pex/signal.h:115 | a copy of the same observer type takes the model pointer and observer slot member by member, with no has-value check and no connection |
| Signals.SameTypeCopyHearsNothing | pex/signal.h:74-81 | a same-type copy hears no trigger where a copy of another type hears each once, and a copied observer makes its destructor fail the debug assertion |
| Signals.DestroyControlSignal | pex/signal.h:57-63 | the destructor disconnects from the model when there is one, and fails its assertion exactly when the control's observer is still connected |
| Signals.ControlConnect | pex/detail/notify_one.h:45-68 | connecting an observer fills the control's single slot with that observer and callable alone, replacing any earlier one, and leaves the binding to the model as it was |
| Signals.OnModelSignaledCalls | pex/signal.h:98-104 | a model trigger reaches the control's observer exactly when it has one |
| Signals.ControlReconnectReplaces | pex/detail/notify_one.h:45-68 | after two connections only the second observer hears the model, and a control without observer passes nothing on |
| Signals.ControlTrigger | pex/signal.h:65-72 | a control's `Trigger` fails its has-value requirement exactly without a model, and otherwise is the model's trigger passed on by every control it reaches |
| Signals.DeliverAppend | pex/signal.h:65-104 | passing on the calls of two runs of triggers is passing on each run in turn |
| Signals.TriggerReachesEveryControl | pex/signal.h:65-104 | a trigger from any bound control reaches the observer of every control connected to the model, the triggering one included |
| Signals.TriggerEchoesToSource | pex/signal.h:51-104 | a control built on a model and given an observer passes its own trigger back to that observer |
| Aggregates.NewAggregate | pex/detail/aggregate.h:234-266 | a new aggregate is unmuted, unmodified, has made no member connections and has no observer |
| Aggregates.MakeConnections | pex/detail/aggregate.h:380-395 | `MakeConnections_` records that the member connections are made and changes nothing else about the group |
| Aggregates.MakeUnmakeRestores | pex/detail/aggregate.h:380-423 | making the member connections and then unmaking them returns the group to its prior state, with one event each way |
| Aggregates.UnmakeConnections | pex/detail/aggregate.h:406-423 | `UnmakeConnections_` does nothing when no connections were made, and otherwise disconnects once and records it |
| Aggregates.AggregateConnect | pex/detail/aggregate.h:307-315 | `Connect` makes the member connections only on the first call and then takes the observer, leaving the mute state and the modified flag alone |
| Aggregates.AggregateDisconnect | pex/detail/aggregate.h:317-327 | `Disconnect` unmakes the member connections, drops an enclosing aggregate's signal and releases the observer, failing only as the single-observer slot's assertion does |
| Aggregates.AssignUpstream | pex/detail/aggregate.h:269-288 | taking a new upstream unmakes the member connections, which are not made again until the next `Connect`, and keeps the observer |
| Aggregates.DestroyAggregate | pex/detail/aggregate.h:295-305 | the destructor unmakes the member connections and clears the observer |
| Aggregates.ConnectAggregate | pex/detail/aggregate.h:375-378 | an enclosing aggregate installs its member-changed signal; the mute state, modified flag, member connections and observer are untouched |
| Aggregates.Notify | pex/detail/aggregate.h:336-339 | `Notify` reaches the single observer once when there is one and nobody otherwise |
| Aggregates.MemberChangeNotifiesUnlessMuted | pex/detail/aggregate.h:425-471 | a member change leaves the group modified and is notified exactly once, with the group's value, when the group is unmuted and has an observer, and never otherwise; a nested aggregate's change is never notified |
| Aggregates.MemberChangesForward | pex/detail/aggregate.h:375-471 | an enclosing aggregate is signalled on a member change, direct or nested, exactly when it installed its signal; `ConnectAggregate_` turns forwarding on and `Disconnect` turns it off |
| Aggregates.OnMute | pex/detail/aggregate.h:473-505 | a full release notifies once exactly when the group was modified and clears the flag; a new mute clears the flag; the new state is stored and nothing else changes |
| Aggregates.NotificationsAppend | pex/detail/aggregate.h:425-505 | the notifications of two runs of events add up |
| Aggregates.MutedChangesAreHeld | pex/detail/aggregate.h:425-450 | while muted, any number of member changes notify nobody and leave the group modified exactly when there was at least one |
| Aggregates.GroupChangeNotifiesOnce | pex/detail/aggregate.h:425-505 | muting, changing any number of members and unmuting tells a connected observer once when something changed and not at all otherwise, and leaves the group unmodified |
| Aggregates.ConnectionsMadeOnce | pex/detail/aggregate.h:307-423 | however often `Connect` is called the member connections are made once, and unmaking twice is unmaking once |
| ListConnects.Indices | pex/detail/list_connect.h:558-571 | the indices visited are exactly `0` to `count - 1` |
| ListConnects.GroupNotify | pex/detail/list_connect.h:538-546 | a group notification calls the value callback with the cache, if connected, and then the signal callback, if connected |
| ListConnects.MakeListConnections | pex/detail/list_connect.h:549-572 | every index of the list gains an item connection, none for an empty list, and the debug assertion fails exactly when an index already has one |
| ListConnects.DefaultListConnect | pex/detail/list_connect.h:130-146 | the default `ListConnect` has no observer, no callback, no item connection and an empty cache |
| ListConnects.NewListConnect | pex/detail/list_connect.h:148-304 | a new `ListConnect` caches the list's values and mute state, is not in a notifying phase, connects a given callback with the given observer even when that observer is null, and makes one item connection per index exactly when it is given a callback |
| ListConnects.CopyListConnect | pex/detail/list_connect.h:306-369 | a copy for an observer re-makes each of the other's callbacks for that observer, keeps its mute state, takes a fresh cache, and has item connections exactly when a callback was copied |
| ListConnects.AssignListConnect | pex/detail/list_connect.h:359-416 | an assignment re-makes the other's callbacks for the observer, keeps this object's callback of a kind the other lacks, re-makes item connections only when the other has a callback, and takes the other's mute state, flag and cache |
| ListConnects.CopyAgreesWithAssign | pex/detail/list_connect.h:306-416 | copying equals assigning into a default `ListConnect`, for a source outside a notifying phase; assigning from a source without callbacks keeps the target's callbacks while dropping their item connections |
| ListConnects.ListConnectCallback | pex/detail/list_connect.h:418-458 | `Connect` throws `runtime_error` exactly without an observer; otherwise the callback replaces any of its kind, the other kind is kept, and item connections are made only when there are none |
| ListConnects.ListConnectWith | pex/detail/list_connect.h:433-458 | `Connect(observer, callable)` throws exactly for a null observer and otherwise connects the callback with that observer |
| ListConnects.ListDisconnect | pex/detail/list_connect.h:480-490 | `Disconnect` drops both callbacks and every item connection and keeps the cache |
| ListConnects.MutedChangesNotifyOnRelease | pex/detail/list_connect.h:498-536 | while muted no item change reaches anyone, and the release sends one group notification carrying every change |
| ListConnects.OnItemChanged | pex/detail/list_connect.h:517-547 | an item change throws `out_of_range` exactly past the cache; otherwise it stores the item and sends a group notification unless muted or in a notifying phase |
| ListConnects.OnMemberWillRemove | pex/detail/list_connect.h:589-603 | a removal does nothing without an index or without item connections, throws `out_of_range` for an index without one, and otherwise drops that index's connection only |
| ListConnects.OnMemberAdded | pex/detail/list_connect.h:605-630 | an addition refreshes the cache from the list and, while a callback is connected, adds the new index's connection; the debug assertion fails exactly when that index already has one |
| ListConnects.MutedPhaseWaitsForRelease | pex/detail/list_connect.h:498-655 | a notifying phase that ends while muted sends nothing, and the later release sends one group notification carrying every change |
| ListConnects.Apply | pex/detail/list_connect.h:524 | the reference cache after a run of item changes keeps the list's length |
| ListConnects.NotifyingChangesAreHeld | pex/detail/list_connect.h:517-536 | while the list is muted or notifies all its members, any run of in-range item changes is cached and sends nothing |
| ListConnects.NotifyingPhaseNotifiesOnce | pex/detail/list_connect.h:517-655 | a list-wide notification while unmuted gives the observer exactly one group notification, carrying every change, when the phase ends |
| ListConnects.DisconnectedHearsNothing | pex/detail/list_connect.h:480-655 | after `Disconnect` no item change, unmute or end of a notifying phase reaches the observer |
| ListConnects.ConnectMakesEachIndexOnce | pex/detail/list_connect.h:418-490 | a first `Connect` makes exactly one item connection per index, a later one makes none, and `Disconnect` clears them all |
| Lists.DefaultItems | pex/list.h:52-57 | there are `count` items, each a present item holding the default value |
| Lists.NewModelList | pex/list.h:44-58 | a new model list has `initialCount` present items and reads back as `initialCount` default values |
| Lists.ModelListAt | pex/list.h:60-70 | item access fails with `out_of_range` exactly past the end and with `logic_error` exactly on a null item; otherwise it gives that item |
| Lists.ListGet | pex/list.h:72-87 | `Get` fails with `logic_error` exactly when some item is null; otherwise it has one value per item, each the value item access gives |
| Lists.ListSet | pex/list.h:89-100 | `Set` throws `out_of_range` exactly when the number of values differs from the item count; otherwise `Get` reads the values back and each item is set once, in index order |
| Lists.ModelListOnCount | pex/list.h:125-144 | a count change announces itself once, keeps the items below the new count and fills any new positions with default items |
| Lists.GrowThenShrink | pex/list.h:125-144 | growing a list and shrinking it back gives the original list |
| Lists.ShrinkKeepsPrefix | pex/list.h:125-144 | shrinking a readable list keeps it readable and keeps the values of the items that remain |
| Lists.DefaultControlList | pex/list.h:190-198 | a default control list has no upstream and no items |
| Lists.ItemControls | pex/list.h:312-327 | the controls made for `count` upstream items are one per index, in order, and making them fails exactly when some upstream item access fails |
| Lists.NewControlList | pex/list.h:200-217 | a control list made from a model list has an upstream and one control per counted item, and fails exactly when one of those items cannot be accessed |
| Lists.ControlListAt | pex/list.h:246-249 | control access fails with `out_of_range` exactly past the end and otherwise gives that control |
| Lists.OnCountWillChange | pex/list.h:307-310 | the announcement of a count change drops every item control |
| Lists.ControlListOnCount | pex/list.h:312-327 | a new count throws `logic_error` while item controls remain; otherwise it makes one control per upstream item, failing exactly when an item access fails |
| Lists.CountChangeRebuildsControls | pex/list.h:125-327 | a count change on the model, announced and then delivered, leaves the control list with one control per model item whether the list grew or shrank; a count that arrives before the controls were dropped is refused |
| OrderedLists.RangeIsPermutation | pex/ordered_list.h:482-501 | the storage indices in storage order, as a list that has only grown holds them, are a permutation of the count |
| OrderedLists.PermutationLength | pex/ordered_list.h:232-235 | a permutation of the storage indices has exactly one entry per list item, as the constructor asserts |
| OrderedLists.Find | pex/ordered_list.h:274-277 | the search gives the first position holding the storage index, and the end exactly when it is absent |
| OrderedLists.MoveToTop | pex/ordered_list.h:303-337 | fewer than two items are left alone; otherwise an absent storage index throws `out_of_range` and a present one moves to the front with the others in their order, the same indices rearranged |
| OrderedLists.MoveToBottom | pex/ordered_list.h:265-301 | fewer than two items are left alone; otherwise an absent storage index throws `out_of_range` and a present one moves to the back with the others in their order, the same indices rearranged |
| OrderedLists.SwapNext | pex/ordered_list.h:364-366 | the swap exchanges two neighbours, leaves every other position alone and rearranges the same indices |
| OrderedLists.MoveDown | pex/ordered_list.h:339-369 | an absent storage index throws `out_of_range`, an empty list included; one at the bottom stays; any other swaps with its successor |
| OrderedLists.MoveUp | pex/ordered_list.h:371-397 | an absent storage index throws `out_of_range`; one at the top stays; any other swaps with its predecessor |
| OrderedLists.SameMultisetKeepsPermutation | pex/ordered_list.h:265-397 | any rearrangement of a permutation of the storage indices is again one |
| OrderedLists.MovesKeepPermutation | pex/ordered_list.h:265-397 | each of the four moves keeps the display order a permutation of the storage indices |
| OrderedLists.MoveDownThenUp | pex/ordered_list.h:339-397 | moving an item that is not at the bottom down and then up restores the display order |
| OrderedLists.FindAfterSwap | pex/ordered_list.h:339-369 | after moving down, the item is found one place further down |
| OrderedLists.SwapNextTwice | pex/ordered_list.h:364-366 | swapping the same neighbours twice restores the order |
| OrderedLists.RemoveMembership | pex/ordered_list.h:504-537 | after a removal the display order holds the storage indices below the removed one and one less than each above it, and nothing else |
| OrderedLists.RemoveKeepsDistinct | pex/ordered_list.h:504-537 | the renumbering after a removal never makes two positions hold the same storage index |
| OrderedLists.RemoveKeepsPermutation | pex/ordered_list.h:504-537 | removing a stored item turns a permutation of `n` storage indices into one of `n - 1` |
| OrderedLists.ResizeIndices | pex/ordered_list.h:545-596 | a count change leaves the order alone at the same size, appends the new storage indices in order when growing, and drops only those past the new count when shrinking |
| OrderedLists.KeepBelow | pex/ordered_list.h:580-586 | the order after shrinking holds exactly the storage indices below the new count |
| OrderedLists.KeepBelowDistinct | pex/ordered_list.h:580-586 | dropping storage indices past the count keeps the remaining ones distinct |
| OrderedLists.ResizeKeepsPermutation | pex/ordered_list.h:545-596 | after any count change the display order is a permutation of the new count |
| OrderedLists.KeepBelowIsOrdered | pex/ordered_list.h:580-586 | shrinking keeps the remaining items in their relative display order |
| OrderedLists.OrderedAt | pex/ordered_list.h:840-852 | ordered access throws `out_of_range` exactly when the position or the storage index it names is out of range, and otherwise gives the item stored there |
| OrderedLists.ReverseAt | pex/ordered_list.h:714-741 | the reverse iterator's step `k` is ordered access at position `count - k - 1`, and fails past the end |
| OrderedLists.Ordered | pex/ordered_list.h:840-852 | the displayed list has one item per position, each what ordered access gives |
| OrderedLists.ReverseReadsBackwards | pex/ordered_list.h:714-741 | reverse iteration reads the displayed list from the back |
| OrderedLists.AssignItem | pex/ordered_list.h:400-415 | assigning at a display position throws `out_of_range` exactly when ordered access does; otherwise ordered access there gives the new item and every other stored item is unchanged |
| OrderedLists.Prepend | pex/ordered_list.h:247-252 | `Prepend` stores the item at the next storage index and puts that index in front of the previous display order |
| OrderedLists.PrependShowsFirst | pex/ordered_list.h:247-252 | after `Prepend` the new item is displayed first and the display order is still a permutation of the storage indices |
| OrderedLists.ControlForward | pex/ordered_list.h:1050-1091 | a control without a model refuses `Prepend` with `PexError` and the moves with `logic_error`, and otherwise forwards the call unchanged |
| IndexedMaps.LeastExists | pex/indexed_map.h:24-30 | every non-empty set of keys has a least key, so ascending iteration of a `std::map` is well defined |
| IndexedMaps.CollectLeast | pex/indexed_map.h:24-30 | taking the least key not yet visited keeps the visited keys ascending and below every key still to come |
| IndexedMaps.GetInvalidatedKeys | pex/indexed_map.h:16-33 | the invalidated keys are exactly the map's keys at or past `firstToClear`, in strictly ascending order |
| IndexedMaps.Invalidated | pex/indexed_map.h:26-29 | a key is invalidated exactly when it is in the map and at or past `firstToClear` |
| IndexedMaps.ClearInvalidated | pex/indexed_map.h:36-47 | after clearing, the map holds exactly its keys below `firstToClear`, each with its previous value |
| IndexedMaps.ClearInvalidatedRetains | pex/indexed_map.h:36-47 | clearing gives the map restricted to keys below `firstToClear`; clearing again from the same index changes nothing, and clearing from 0 empties the map |
| Ranges.IntegralPartBelow | pex/range.h:66-80 | for a proper fraction, the integral reading of a `Limit` is its real reading with the fraction dropped |
| Ranges.DefaultMinimum | pex/range.h:147-156 | the minimum is the given limit's integral value, or the type's lowest value when none is given |
| Ranges.DefaultMaximum | pex/range.h:159-168 | the maximum is the given limit's integral value, or the type's largest value when none is given |
| Ranges.FilterSet | pex/range.h:123-128 | with ordered limits the filter's output lies within them and keeps a value already inside; with crossed limits it is always the minimum |
| Ranges.FilterSetOptional | pex/range.h:123-128 | the filter on an optional value passes the empty value and filters a present one |
| Ranges.FilterIdempotent | pex/range.h:118-128 | filtering twice is filtering once, and the getter reads a filtered value back unchanged |
| Ranges.Constrain | pex/range.h:766-775 | with ordered bounds the result lies within them and keeps a value already inside; with crossed bounds it is always the maximum |
| Ranges.ClampsAgree | pex/range.h:123-775 | the filter and `Constrain` agree whenever the limits are ordered; with crossed limits the filter gives the minimum and `Constrain` the maximum |
| Ranges.NewRange | pex/range.h:204-233 | a new range publishes the default limits, filters by them, holds the filtered initial value and remembers it as the default; with ordered limits it is consistent |
| Ranges.RangeSet | pex/range.h:496-500 | `Set` stores the filtered value and notifies it once, an empty optional included, keeping the range consistent |
| Ranges.SetLimits | pex/range.h:264-333 | crossed limits throw `invalid_argument`; otherwise both limits and the filter take the new bounds, a value outside moves to the nearer bound, and the notifications go out as value (only if it moved), maximum, minimum |
| Ranges.SetMinimum | pex/range.h:335-371 | the new minimum is capped at the maximum, the filter spans the new limits, a value below it is raised and notified first, and consistency is kept |
| Ranges.SetMaximum | pex/range.h:373-403 | the new maximum is raised to at least the minimum, the filter spans the new limits, a value above it is lowered and notified first, and consistency is kept |
| Ranges.TrimMinimum | pex/range.h:408-452 | the value filter's minimum moves to the trim, capped at the filter's maximum; the published minimum moves, and is notified, only when the trim lies below it; a value below the trim is raised to it |
| Ranges.TrimMaximum | pex/range.h:454-494 | the value filter's maximum moves to the trim, raised to at least the filter's minimum; the published maximum moves, and is notified, only when the trim lies above it; a value above the trim is lowered to it |
| Ranges.SetInitial | pex/range.h:248-252 | `SetInitial` stores the filtered value without any notification, remembers the value as given as the default, and keeps the limits |
| Ranges.ResetRestoresInitial | pex/range.h:248-555 | a reset after `SetInitial` brings back the initial value whatever was set since, and notifies that value once, empty or not |
| Ranges.SetLimitsIdempotent | pex/range.h:264-333 | applying the same limits a second time changes nothing and notifies only the two limits |
| Ranges.AddRangeSetLimits | pex/range.h:640-671 | `AddRange::SetLimits` ends in the same state as `Range::SetLimits` but always notifies the value, then the maximum, then the minimum |
| Ranges.NewLinked | pex/linked_ranges.h:72-83 | the linked ranges start with each range's value filter ending at the other's value, so low never exceeds high |
| Ranges.SetsKeepLink | pex/linked_ranges.h:86-94 | setting either value keeps the link, so low never exceeds high, and the trim it causes never moves the other value |
| Selects.NewSelectFilter | pex/select.h:58-66 | a `SelectFilter` throws `invalid_argument` exactly for no choices |
| Selects.SelectFilterGet | pex/select.h:68-76 | the filter always gives a valid index: an index past the end reads as the last, any other is kept |
| Selects.SelectFilterProjects | pex/select.h:68-81 | filtering a filtered index changes nothing, and the filter keeps an index exactly when it is valid |
| Selects.NewSelect | pex/select.h:136-159 | constructing from a value throws `out_of_range` exactly when the value is not a choice; otherwise the first index holding it is selected and selection and value agree |
| Selects.NewSelectFromChoices | pex/select.h:160-171 | constructing from non-empty choices selects the first one, and value and selection agree |
| Selects.SelectGet | pex/select.h:175-178 | `Get` gives the choice at the selected index, not the index |
| Selects.GetSelectedIndex | pex/select.h:231-234 | the selected index always lies within the choices |
| Selects.OnSelection | pex/select.h:297-301 | a selection change sets and notifies the value to the chosen element, and throws `out_of_range` exactly past the end of the choices |
| Selects.SetSelection | pex/select.h:218-221 | selecting an index stores it clamped to the last choice, notifies it, and the value follows to that choice |
| Selects.SetValue | pex/select.h:223-229 | setting a value throws `out_of_range` exactly when it is not a choice; otherwise the first index holding it is selected and notified, and the value follows |
| Selects.SetChoices | pex/select.h:190-216 | new choices keep a selection still inside them and re-read the value, otherwise return the selection to 0; the choices are published last; an empty list throws `out_of_range` when the value is read |
| Selects.SetInitial | pex/select.h:269-294 | `SetInitial` ignores a value that is not a choice and otherwise selects its first index without notification, keeping selection and value in step |
| Selects.SetWithoutNotify | pex/select.h:305-325 | writing a value without notification throws `out_of_range` exactly when it is not a choice, and otherwise selects its first index with the value in step |
| Selects.DoNotify | pex/select.h:327-330 | a repeated notification re-announces the selection and then its value, and changes nothing in a consistent select |
| Selects.ControlSetWithoutNotify | pex/select.h:454-461 | a control's write without notification throws `out_of_range` exactly when the value is not a choice and otherwise writes only the upstream's selection |
| Selects.ControlWriteThenNotifyIsSetValue | pex/select.h:454-466 | a control's silent write followed by its notification leaves the model exactly as `SetValue` does and announces the same |
| Selects.SetValueOfGet | pex/select.h:175-229 | setting the value just read selects the first index holding it, never later than the current one, and keeps the value |
| Selects.SelectThenGet | pex/select.h:175-221 | after selecting an index, `Get` gives the choice at that index clamped to the last |
| Choosers.NewChooserFromValue | pex/chooser.h:57-63 | a chooser made from one value has that value as its only choice, selected |
| Choosers.NewChooser | pex/chooser.h:65-73 | a chooser made from a value and choices throws `out_of_range` exactly when the value is not a choice, and otherwise selects the first index holding it |
| Choosers.NewChooserFromChoices | pex/chooser.h:75-84 | a chooser made from choices selects the first; no choices is `invalid_argument` |
| Choosers.GetSelection | pex/chooser.h:113-117 | the selection is the choice at the selected index, so always one of the choices |
| Choosers.SelectionFollowsIndex | pex/chooser.h:65-117 | selecting an index in range reads back the choice there, and constructing a chooser from the current selection and the same choices keeps that selection, at an index no later than the current one |
| Choosers.SetSelectedIndex | pex/chooser.h:103-111 | selecting an index throws `out_of_range` exactly past the end; otherwise the selection becomes that choice and the index is notified once |
| Choosers.SetChoices | pex/chooser.h:86-101 | new choices keep the selected index if it is still inside them, otherwise reset it to 0 with one notification, and never announce the new list |
| Choosers.SetChoicesPublished | pex/chooser.h:86-101 | with the publication the code's comment promises, the state is as `SetChoices` leaves it and the new list is announced once, after any index notification |
| Choosers.SetChoicesNeverPublishes | pex/chooser.h:86-101 | as written, no change of choices is ever announced to the choices' observers, which the intended behaviour does |
| Choosers.SetChoicesKeepsSelection | pex/chooser.h:86-117 | after non-empty new choices the selection reads the choice at the kept index, or the first choice |
| Bitsets.FlagGet | pex/bitset.h:37-40 | a flag reads true exactly when its bit is set |
| Bitsets.FlagSet | pex/bitset.h:42-47 | writing a flag reads back as the value written and leaves every other bit of the model's current bitset alone |
| Bitsets.FlagSetRoundTrip | pex/bitset.h:37-47 | writing a flag's own reading back changes nothing, and a second write to the same flag overrides the first |
| Bitsets.FlagWritesCompose | pex/bitset.h:42-47 | because each write reads the model's bitset as it is then, writes through two different flags both stick, in either order |
| Bitsets.BitsetFlagsControl | pex/bitset.h:70-81 | the flags control has one flag per bit, flag `i` bound to bit `i` |
| Bitsets.FlagsControlWritesOwnBit | pex/bitset.h:63-85 | setting flag `i` of the flags control writes bit `i` of the model and no other |
| Bitsets.Decimal | pex/wx/bitset_check_boxes.h:98 | the printed index is a non-empty run of decimal digits |
| Bitsets.DecimalRoundTrip | pex/wx/bitset_check_boxes.h:98 | the printed index reads back as the index |
| Bitsets.MakeDefaultNames | pex/wx/bitset_check_boxes.h:92-102 | there is one default name per bit, bit `i` named `"bit "` followed by `i` in decimal |
| Bitsets.DefaultNamesDistinct | pex/wx/bitset_check_boxes.h:92-102 | the default names tell the bits apart: two are equal exactly when their bits are |
| Expands.ExpandSet | pex/expand.h:33-41 | writing a member through its filter reads back as the value written and leaves every other member of the control's current aggregate alone |
| Expands.ExpandSetOfGet | pex/expand.h:28-41 | writing back the member a filter reads is no change |
| Expands.InitializeExpanded | pex/expand.h:58-86 | the expanded fields are paired with the source's members in declaration order, expanded field `k` filtering member `k` |
| Expands.SetFieldsChangesThoseFields | pex/expand.h:28-86 | after the first `n` expanded fields are written, those members hold the written values and the rest are untouched |
| Expands.SetEveryFieldSetsModel | pex/expand.h:28-86 | writing every expanded field gives the model exactly the written values |
| TupleToVariants.UniqueTupleFrom | pex/tuple_to_variant.h:15-34 | the fold keeps the types already collected as a prefix, adds nothing twice, and ends holding exactly the collected and the remaining types |
| TupleToVariants.UniqueTuple | pex/tuple_to_variant.h:36-37 | `UniqueTuple` holds every given type exactly once and nothing else |
| TupleToVariants.FirstOccurrencesMembers | pex/tuple_to_variant.h:13-14 | the reference list of first occurrences holds exactly the given types and is no longer than the input |
| TupleToVariants.UniqueTupleFromFirstOccurrences | pex/tuple_to_variant.h:18-34 | continuing the fold after a prefix gives the first occurrences of the whole list |
| TupleToVariants.FirstOccurrencesStep | pex/tuple_to_variant.h:18-34 | one more type adds itself to the first occurrences exactly when it is new, which is one step of the fold |
| TupleToVariants.UniqueTupleKeepsFirsts | pex/tuple_to_variant.h:13-37 | `UniqueTuple` keeps the first occurrence of each type, in input order |
| TupleToVariants.UniqueTupleOfDistinct | pex/tuple_to_variant.h:13-37 | a list without repeats comes back unchanged |
| TupleToVariants.FirstOccurrencesOfDistinct | pex/tuple_to_variant.h:13-14 | the first occurrences of a list without repeats are the list itself |
| TupleToVariants.TupleToVariant | pex/tuple_to_variant.h:65-80 | the variant's alternatives are distinct and are exactly the tuple's types |
| TupleToVariants.FieldsElements | pex/tuple_to_variant.h:98-111 | there is one element type per field, in field order, each the field's member type |
| TupleToVariants.FieldsElementsVariant | pex/tuple_to_variant.h:114-115 | the variant has one distinct alternative for each type some field has, and no other |
| Polys.PolyUnstructure | pex/poly_base.h:16-23 | the JSON holds every field of the object under its own key and the type name under `"type"`, and no other key |
| Polys.RegisterDerived | pex/poly_base.h:64-92 | registration throws `logic_error` exactly for an empty type name or one already registered, and otherwise adds the name to the registry |
| Polys.Structure | pex/poly_base.h:45-57 | reading JSON throws `runtime_error` exactly when its type name is not registered, and otherwise builds an object of that type from every other key |
| Polys.StructureOfUnstructure | pex/poly_base.h:16-57 | writing an object of a registered type and reading it back gives the same object, when it has no field of its own named `"type"` |
| Polys.RegisterThenStructure | pex/poly_base.h:45-92 | a type name cannot be read before it is registered, can be read after, and cannot be registered twice |
| Polys.MakeDerivedFrom | pex/detail/poly_detail.h:67-89 | the fold over the pack stops at the first type whose name matches, and finds none exactly when no type in the rest of the pack has it |
| Polys.CreatorStructure | pex/detail/poly_detail.h:92-109 | a fixed pack throws `runtime_error` without a `"type"` key or when no type in it has that name, and otherwise makes the first type with that name |
| Polys.EmptyValue | pex/poly_value.h:26-30 | a default value holds no object |
| Polys.Initialize | pex/poly_value.h:81-85 | `Initialize` gives a value holding an object of the requested type |
| Polys.PolyEqualsOnlyWhenSet | pex/poly_value.h:108-116 | equality is symmetric; a value equals itself exactly when it holds an object, so two empty values are unequal; equal values hold the same object |
| Polys.Unstructure | pex/poly_value.h:60-73 | writing throws `logic_error` exactly for an empty value, and otherwise names the object's type under `"type"` |
| Polys.ValueStructure | pex/poly_value.h:75-79 | reading fails exactly when the type name is unregistered, and otherwise gives a value holding an object of that type |
| Polys.ValueRoundTrip | pex/poly_value.h:60-79 | a value holding an object of a registered type survives writing and reading back, and the result compares equal to the original |
| Polys.GetDerived | pex/poly_value.h:118-123 | `GetDerived` gives the object exactly when the value holds one of the requested type, else null |
| Polys.RequireDerived | pex/poly_value.h:125-136 | `RequireDerived` throws `PolyError` exactly when `GetDerived` gives null, and otherwise gives the same object |
| PolyModels.NewPolyModel | pex/model_wrapper.h:78-96 | a new model holds no base and is consistent |
| PolyModels.ModelSet | pex/poly_model.h:99-121 | after `Set` the base is made for the value's type and holds the value; the value is notified, followed by `baseCreated` exactly when the previous base did not fit |
| PolyModels.ModelSetWithoutNotify | pex/poly_model.h:125-146 | the state is the same as after `Set`, and the only signal is `baseCreated`, exactly when a new base was made |
| PolyModels.SetIsSetWithoutNotifyThenNotify | pex/poly_model.h:99-151 | `Set` reaches the same state as `SetWithoutNotify_` followed by `DoNotify_` and sends the same signals, but notifies the value before announcing a new base rather than after |
| PolyModels.ModelRequireDerived | pex/poly_model.h:87-97 | `RequireDerived` throws `PolyError` exactly when there is no base of the requested type, and otherwise leaves the model as it was |
| PolyModels.ModelSetCreatesBaseOnTypeChange | pex/poly_model.h:99-121 | a base is created exactly when the type changes, never for a second value of the same type; the value's own notification comes first; afterwards the base is of the value's type |
| PolyModels.WrapperSetWithoutNotify | pex/model_wrapper.h:148-183 | a value that does not fit replaces the base, announcing the deletion first only when a base existed and then the internal and public creation; a value that fits is set silently; the state is the same as `poly::Model`'s |
| PolyModels.WrapperSet | pex/model_wrapper.h:135-144 | `Set` emits the signals of `SetWithoutNotify_` and then one notification of the value |
| PolyModels.WrapperSignalsOrdered | pex/model_wrapper.h:135-183 | the wrapper and `poly::Model` end in the same state; a first value announces no deletion; replacing a base emits delete, internal delete, internal create, create, then the value; a fitting value emits only the value |
| Shortcuts.LookupFirst | pex/wx/shortcut.cpp:49-59 | a lookup in a map built from an initializer list finds a key exactly when some entry has it, and then gives the value of an entry with that key |
| Shortcuts.LookupFirstAt | pex/wx/shortcut.cpp:49-59 | when a key repeats in the initializer list, the map keeps the first entry's value |
| Shortcuts.ToChar | pex/wx/shortcut.h:23-26 | cutting a code to a `char` gives a signed 8-bit value congruent to it modulo 256, and keeps any code that already fits |
| Shortcuts.GetString | pex/wx/shortcut.cpp:12-25 | a key's string is its special name when it has one; otherwise codes above 127 throw `runtime_error` and the rest give their one character |
| Shortcuts.KeyNameLong | pex/wx/shortcut.cpp:28-45 | every special key name is longer than one character and contains no `+` |
| Shortcuts.KeyNameInjective | pex/wx/shortcut.cpp:28-45 | no two special key codes share a name |
| Shortcuts.KeyStringsDistinct | pex/wx/shortcut.cpp:12-45 | two keys that both have a string have the same string exactly when they are the same key, and the same integer exactly then |
| Shortcuts.NewHeaderKey | pex/wx/shortcut.h:23-26 | the header's key keeps only the code cut to a `char` |
| Shortcuts.HeaderKeyNameOfCode | pex/wx/shortcut.h:50-67 | every special code still finds its name once cut to a `char` |
| Shortcuts.HeaderKeyNameHasCode | pex/wx/shortcut.h:50-67 | every name the header's table finds belongs to a special code that cuts to that `char` |
| Shortcuts.HeaderGetString | pex/wx/shortcut.h:33-41 | the header's key string is the name its `char` finds, or else the one character of that `char` |
| Shortcuts.HeaderKeyConfusesInsert | pex/wx/shortcut.h:23-67 | the header's key shows the letter `B` as `INSERT` and gives `WXK_INSERT` the integer of `B`, where the source-file version keeps the two apart |
| Shortcuts.ModifierName | pex/wx/shortcut.cpp:51-59 | a modifier flag's name is what the first entry of the modifier table with that flag holds |
| Shortcuts.ModifierNamesOfFlags | pex/wx/shortcut.cpp:51-59 | CTRL, SHIFT and ALT have their own names, and `wxACCEL_RAW_CTRL` is named `RAWCTRL` on Apple builds and `CTRL` elsewhere |
| Shortcuts.NameIfSet | pex/wx/shortcut.cpp:75-81 | one step of the loop adds at most one name |
| Shortcuts.ModifierNames | pex/wx/shortcut.cpp:49-84 | the names listed are exactly those of the set flags, `RAWCTRL` only on Apple builds, with no repeats, none empty and none containing `+` |
| Shortcuts.NamesCombo | pex/wx/shortcut.cpp:62-81 | whichever of the four names are present, in the loop's order, they are distinct, non-empty and free of `+` |
| Shortcuts.HeaderModifierNames | pex/wx/shortcut.h:82-108 | on Apple builds the header lists the same names as the source file |
| Shortcuts.ModifierStringDeterminesFlags | pex/wx/shortcut.cpp:49-84 | the modifier string splits at `+` back into the list of names, is empty exactly when no listed flag is set, and two bitfields give the same string exactly when they agree on every flag the platform lists |
| Shortcuts.HeaderModifierRepeatsCtrl | pex/wx/shortcut.h:82-108 | on non-Apple builds the header describes CTRL as `CTRL+CTRL`, where the source file gives `CTRL`; on Apple builds the two agree |
| Shortcuts.MenuItemLabel | pex/wx/shortcut.cpp:117-141 | the label is the description, a tab, then the modifier string and `+` when it is not empty, then the key string |
| Shortcuts.GetMenuItemLabel | pex/wx/shortcut.cpp:117-141 | building the label throws `runtime_error` exactly when the key's string does |
| Shortcuts.LabelParts | pex/wx/shortcut.cpp:117-141 | a label reads back: before the tab is the description, and after it the pieces between `+` are the modifier names followed by the key string |
| Shortcuts.LabelRoundTrip | pex/wx/shortcut.cpp:117-141 | for any tab-free description, `+`-free names and a non-empty `+`-free key, the label splits back into exactly those parts |
| Shortcuts.LabelSplitsAtTab | pex/wx/shortcut.cpp:117-141 | the first tab of a label separates the description from the accelerator text |
| Shortcuts.AccelIsJoin | pex/wx/shortcut.cpp:117-141 | the accelerator text is the modifier names and the key joined with `+` |
| Shortcuts.OnEventMenu | pex/wx/shortcut.cpp:112-115 | a menu event triggers the shortcut's signal, calling each of its connections once |
| Shortcuts.OnEventMenuTriggersOnce | pex/wx/shortcut.cpp:112-115 | one menu event reaches each observer once per connection it holds on the shortcut's signal |
| Shortcuts.GetAcceleratorEntry | pex/wx/shortcut.cpp:97-104 | a shortcut's accelerator entry carries its modifier flags, its key's integer and its id |
| Shortcuts.EntriesOf | pex/wx/shortcut.cpp:261-273 | there is one entry per shortcut, in order, each that shortcut's accelerator entry |
| Shortcuts.CreateAcceleratorEntries | pex/wx/shortcut.cpp:261-273 | the entries are one per shortcut, in order, each that shortcut's accelerator entry |
| Shortcuts.AllShortcutsStep | pex/wx/shortcut.cpp:232-245 | one more menu adds its shortcuts at the end of the table and its count to the total |
| Shortcuts.EntriesAppend | pex/wx/shortcut.cpp:241-245 | concatenating the menus' entries is making the entries of the concatenated shortcuts, and likewise for their ids |
| Shortcuts.NewAcceleratorShortcuts | pex/wx/shortcut.cpp:223-254 | the accelerator table has one entry per shortcut of every menu, menu after menu; its size is the sum of the menus' shortcut counts, as the constructor asserts; every shortcut's id is bound, in the same order |

## Left out

- Python `Connect`: the values and signals call `Connect` on their manifolds (`python/pex/value.py:86`, `python/pex/signal.py:51`), but `python/pex/manifold.py` only defines `Subscribe`. `Connect` is modelled as `Subscribe`.
- Python disconnection: `ValueBase.Disconnect`/`DisconnectAll` (`python/pex/value.py:95-99`) and the signal's `Disconnect`/`DisconnectName` (`python/pex/signal.py:70-74`) call manifold methods that `python/pex/manifold.py` does not define. They are not modelled.
- Python warnings and logging (the tube, the chooser, and `python/pex/transform.py:204-206` and `235-237`): they print and change nothing, so they are left out. The tube's "Unknown model node" condition is still stated as a flag.
- Garbage collection: the moment Python drops a weak reference is modelled as an explicit finalisation step, not as collector timing.
- Publish order: Python publishes over sets, whose iteration order is not fixed. Deliveries are therefore modelled as sets of (callback, value) pairs, without order.
- Transform reflection: `dir`, `inspect` and the `attrs` fields become data, namely a prototype map from member name to member kind.
- Transform members with neither `Get` nor `GetPrototype` (`python/pex/transform.py:203-208`) are not modelled.
- Compound transform members (`RangeModel`, `ChooserModel`): their own `SetWithoutNotify_` is taken as one adjustment function, fixed for the whole load. Their other nodes, such as a range's limits or a chooser's choices, are not part of the instance tree here; `PyRange` and `PyChooser` model those classes in their own right.
- Transform assignment order: `AssignMembers` iterates a set, so only one assignment order is modelled.
- `FloatConverter` (`python/pex/wx/utility/converter.py`) works on floating point and is left out.
- Integer conversion: the integer converter's `int()` accepts an optional sign and decimal digits only. Whitespace, underscores and other bases are left out.
- Python wx user interface: `ShortcutMixin`, `AddToMenu`, `OnEventMenu` and the `GetId` calls of `python/pex/wx/shortcut.py:106-112` and `125-179` are left out.
- PyShortcut.KeyRepr: Python's `chr` returns a one-character string for a surrogate code point (0xD800-0xDFFF). A Dafny `char` cannot hold one, so the model gives `ValueError` for those codes instead.
- `control::Signal::operator=` (`pex/signal.h:83-96`) calls `Disconnect()` with no observer. That template cannot be instantiated as written, so it is left out.
- `model::Chooser::SetSelection` (`pex/chooser.h:119-125`) names `this->choices` where the member is `choices_`. It cannot be instantiated as written, so it is left out.
- Assertions: results modelled as `AssertionError` (the single-observer slot's `assert`s and the other `assert` calls of the C++ headers) assume a debug build. Under `NDEBUG` those checks compile away and the operation goes ahead unchecked, which is not modelled.
- PyChooser.NewChooser: the Python chooser keeps the caller's list object itself (`python/pex/chooser.py:36`, `143`), so a later change to that list through another reference changes the choices. The model has value semantics and copies the list.
- PyChooser.SetChoices: it likewise stores the caller's list (`python/pex/chooser.py:97`), and `SetWithoutNotify_` appends to the stored list in place (`python/pex/chooser.py:74-76`). Only the resulting values are modelled, not the sharing.
- PyChoices: `python/pex/choices.py:4-5` imports `Value` and `FilteredValue` from `python/pex/value.py` and `ConverterProxy` from `python/pex/proxy.py`, and neither module defines them. As written, importing `choices.py` raises `ImportError`. The model takes those names to be the model value, the filtered value and the converter proxy the rest of the module uses them as.
- Mute state: its truth value is taken to be `isMuted`. `pex/detail/mute.h` is not part of this model.
- Weak references, shared pointers and observer addresses are identities. Their lifetimes and dangling cases are left out.
- Exceptions thrown partway through an operation: the partial state they leave is not modelled. Each operation either succeeds or returns its error with the state unchanged.
- `Defer::Clear`: `pex/range.h` calls it, but `pex/reference.h` does not define it. It is modelled as disarming the pending notification.
- `PEX_LOG` and the registration of names for diagnostics are left out.
- `size_t` is modelled as `nat`. The one wrap-around that matters, the reverse index of `pex/ordered_list.h`, is written out.
- Ordered-list endpoints: `MakeOrderConnections_`/`RestoreOrderConnections_` are left out.
- Ordered-list `EraseSelected`, the `memberAdded` signal, and the forwarding `Append`/`Set` wrappers are left out.
- The plain ordered list's `resize` follows the same index rule as `ResizeIndices`.
- `control::List`: `SetWithoutNotify_`, `DoNotify_`, `HasModel`, copy and assignment are left out. They forward to the model or to the members' controls.
- `control::Range` and `RangeTerminus` forward to `model::Range`, so they are left out.
- Floating-point range limits: only `IntegralPartBelow` is modelled.
- Python values are integers (`PyProxy.Value`). `python/pex/range.py:20` also admits `float`, and float values are left out. With a NaN, `RangeModel.Set` stores the minimum and `SetMinimum` stores NaN as the minimum, so `PyRange.Valid` (`minimum <= value <= maximum`) does not hold there.
- `LinkedRanges` default settings (`pex/linked_ranges.h:41-49`) are taken as parameters.
- `control::Select`: the connection plumbing and `SelectTerminus` are left out. `control::Chooser` is a plain wrapper.
- Poly: `Describe` is left out. JSON is a map from keys to opaque strings.
- `Expand`'s compile-time `ZipApply` is a fold over a sequence of fields.
- `TupleToVariant` types are represented by their names.
- wx C++ menus and bindings: `MenuShortcuts`, `AddToMenu`, `BindShortcuts`/`ShortcutFunctor` and the destructor's `Unbind` are left out.
- Accelerator entries: the `menuItem_` pointer and `static_cast<int>(entryCount)` are not modelled.
- The `char keyCode` constructor of the header's `Shortcut` is left out.
- The wx constant values (`WXK_*`, `wxACCEL_*`) are fixed codes standing for wx's.
- Lists.ListSet: requires every item to be present, because the source dereferences each member without a check.
- Polys.Structure: requires a `"type"` key, because `pex/poly_base.h` reads `jsonValues["type"]` without a check.
- Polys.ValueStructure: requires a `"type"` key, for the same reason as `Polys.Structure`.
- Choosers.GetSelection: requires a valid selected index, because the source indexes the choices without a check.
- OrderedLists.Prepend: requires a valid ordered list, the invariant the other operations keep.
- Selects.NewSelectFromChoices: requires non-empty choices. `pex/select.h:163` reads `choices.front()` before the `SelectFilter` can throw `invalid_argument`, so an empty list is undefined behaviour, not a clean error, and the model promises nothing for it.
- Selects: the operations require a selected index within the choices, the object's invariant.

## Findings

| source | as written | input that shows it | evidently intended | confidence | as-written member | corrected member |
|---|---|---|---|---|---|---|
| python/pex/value.py:412-413 | on an exception `ValueContext` restores with `SetWithoutNotify_`, which on a filtered model runs the remembered value through `filterOnSet` again | a filtered model holding 0 with filter `x + 1`, `Set(5)` inside the context, then an exception: the model ends at 1 (`PyValue.ContextRollbackAsWrittenReapplies`) | the model holds the value it had on entry (`PyValue.ContextRollback`) | not executed | PyValue.ExitContextAsWritten | PyValue.ExitContext |
| python/pex/value.py:445-449 | `MultipleValueContext` restores the recorded originals in recording order, so a node set twice gets back the value between the two sets | an unfiltered node set to `a` then `b`, then an exception: it ends at `a` (`PyValue.MultiRollbackTwiceKeepsIntermediate`) | every node holds its value from entry (`PyValue.MultiRollback`) | not executed | PyValue.MultiExitRestoreAsWritten | PyValue.MultiExitRestore |
| pex/chooser.h:86-101 | `SetChoices` writes through a `Reference` that never publishes, so the new choices are never announced | any chooser and any list (`Choosers.SetChoicesNeverPublishes`) | the new choices are announced once, after any index change (`Choosers.SetChoicesKeepsSelection`) | not executed | Choosers.SetChoices | Choosers.SetChoicesPublished |
| pex/wx/shortcut.h:23-67 | the key code is stored as a `char`, so `WXK_INSERT` (322) becomes `'B'` (66) | the letter B is shown as `INSERT` (`Shortcuts.HeaderKeyConfusesInsert`) | every key keeps its own name (`Shortcuts.KeyStringsDistinct`) | not executed | Shortcuts.HeaderGetString | Shortcuts.GetString |
| pex/wx/shortcut.h:82-108 | off Apple `wxACCEL_RAW_CTRL` equals `wxACCEL_CTRL`, and the header tests both | the CTRL flag alone gives `"CTRL+CTRL"` (`Shortcuts.HeaderModifierRepeatsCtrl`) | each modifier is named once and the name gives back the flags (`Shortcuts.ModifierStringDeterminesFlags`) | not executed | Shortcuts.HeaderModifierNames | Shortcuts.ModifierNames |
