# zvag in Dafny

zvag bridges a Z-Wave device network to hemtjanst over MQTT. This project models and verifies its core in Dafny. The bridge has three parts:

- **The gateway** (`ZVagProxy`, module `Gateway`) runs beside the Z-Wave driver.
  - It mirrors the driver's node and value events into two dictionaries.
  - It publishes every merged record, retained, under `<prefix>/node<n>` and `<prefix>/node<n>/value<class>-<instance>-<index>`.
  - A removal is published as the empty payload.
  - It runs the commands that arrive on `<prefix>/set` against the driver.
- **The remote adapter** (`MqttOzw`, module `Adapter`) stands in for the driver on the far side of the broker.
  - It strips its name from each topic and recognises the node and value topic patterns.
  - It rebuilds node and value mirrors and fires driver-style callbacks registered with `on`.
  - It turns every driver call (`setValue`, `setNodeOn`, …) into a tagged command published on `<name>/set`. Nothing is applied locally.
- **The client** (`ZVag`, module `Client`) builds a mirror of nodes (`ZVagNode`, module `ZNode`) and values (`ZVagValue`, module `ZValue`) from driver events.
  - When a node becomes ready, it groups each ready node's values by feature.
  - It then registers one device per `<Type>/<name><id>` topic.

Shared modules:

- `JsonValues`: JavaScript objects as ordered field lists (`Rec`). Insertion order is kept, because `for … in` and `JSON.stringify` follow it. This module also holds reads, field assignment and `Object`-style copying, truthiness, and `===` / `==`.
- `Decimal`: decimal numbers as template literals write them and `parseInt` reads them.
- `Topics`: topic names, the adapter's topic filter and its two anchored patterns.
- `Commands`: the command format and the gateway's dispatch of it.

How state and effects are modelled:

- Classes hold the state the source mutates in place.
- Methods are proved against specification functions (`Merge`, `Observe`, `Upsert`, `RemovedAsWritten`, `Grouped`, `Register`, `Plans`, …).
- Lemmas state what the source promises about those functions.
- External effects are logs kept as fields:
  - the gateway's `outbox` (topic, payload, retain) and `driverLog`;
  - the adapter's `sent` commands, `fired` callbacks and `readyTimers`;
  - a value's `fired` callback calls.
- Each callback is identified by its registration number.

Behaviour of the code worth knowing, which the model follows:

- The adapter's "changed/refreshed" classification compares an observation field by field through the wrong index, so it is not a deep comparison of old and new.
- The gateway's `destroyValue` deletes list positions `0 .. n-1`, where n is the number of matched entries, rather than the matched positions (see Findings).
- A value-removal message drops the node's whole value list, not the one value.
- A ready signal is scheduled every time a node record with a truthy `ready` arrives. It is neither edge-triggered nor cancelled on removal.
- `\d+` topic components are accepted at any size.
- An observation without `node_id` (such as a bare `{"value": 1}`) is filed under the key `undefined`.
- The gateway's `onNodeReady` sets `_ready`, but publishing tests `ready`.

## Model

| member | source | states |
|---|---|---|
| Decimal.NatToString | src/lib/proxy.ts:245 | The decimal form of a node id or class/instance/index in a topic is non-empty and all ASCII digits |
| Decimal.IntToString | src/lib/proxy.ts:193 | A template literal of a non-negative integer is its digit string; a negative one starts with `-` |
| Decimal.DigitRun | src/lib/mqttOzw.ts:119-120 | The longest run of digits a `\d+` group can take: a digit prefix, followed by a non-digit or the end |
| Decimal.ParseNatToString | src/lib/mqttOzw.ts:124-127 | `parseInt` of the decimal form of n gives back n |
| Decimal.NatToStringInjective | src/lib/proxy.ts:245 | Different numbers have different decimal forms, so different ids give different topics |
| Decimal.DigitRunOfNumber | src/lib/mqttOzw.ts:119 | In `node<n><rest>`, with rest empty or starting with a non-digit, the `\d+` group is exactly the digits of n |
| JsonValues.LookupAbsent | src/lib/value.ts:73 | Reading a field an object does not have gives `undefined` |
| JsonValues.LookupAt | src/lib/value.ts:71-73 | In an object with distinct field names, reading a field's name gives that field's value |
| JsonValues.LookupAssign | src/lib/value.ts:75 | After `r[k] = v`, `r[k]` reads `v` and every other field reads as before |
| JsonValues.KeysAssign | src/lib/value.ts:75 | `r[k] = v` adds `k` to the own names and nothing else; the object grows only if `k` was new |
| JsonValues.DistinctAssign | src/lib/value.ts:75 | `r[k] = v` keeps the field names distinct |
| JsonValues.LookupAssignAll | src/lib/node.ts:165-173 | Copying the own fields of `src` into `r`: a field of `src` reads as in `src`, any other as before in `r` |
| JsonValues.KeysAssignAll | src/lib/node.ts:165-173 | The copy's own names are those of `r` and of `src` together |
| JsonValues.DistinctAssignAll | src/lib/node.ts:165-173 | The copy keeps the field names distinct |
| JsonValues.AssignAllSelf | src/lib/proxy.ts:220 | Copying an object's own fields onto itself leaves it unchanged, as `onNodeUpdate(id, this.nodes[id])` does |
| JsonValues.AssignSame | src/lib/mqttOzw.ts:93 | Writing a field's own value back into it leaves the object as it was |
| Topics.Strip | src/lib/mqttOzw.ts:40-44 | A topic is handled iff it is longer than the name and starts with the name and `/`; the subtopic is what follows |
| Topics.StripFullTopic | src/lib/mqttOzw.ts:42-44 | The adapter gets back exactly the subtopic published under its name |
| Topics.NodeSubParses | src/lib/proxy.ts:193 | The adapter's node pattern reads node `n` back from `node<n>` |
| Topics.ParseTripleOfNumbers | src/lib/mqttOzw.ts:119 | `<c>-<i>-<x>` with digit strings parses back to the three numbers |
| Topics.SplitNodePrefix | src/lib/mqttOzw.ts:119-120 | `node<n><tail>` splits into `n` and the tail exactly as the anchored patterns do |
| Topics.ValueSubParses | src/lib/proxy.ts:245 | For non-negative ids, a published value topic parses back to the same node, class, instance and index |
| Topics.NodeSubInjective | src/lib/proxy.ts:193 | Different nodes are published under different node topics |
| Topics.NegativeNodeUnrecognised | src/lib/mqttOzw.ts:119-120 | A negative id published as `node-<n>` matches neither pattern |
| Topics.NodeTailUnrecognised | src/lib/mqttOzw.ts:119-120 | A node subtopic that does not start with `/value` is ignored whatever the id |
| Commands.DecodeClassifies | src/lib/proxy.ts:139-179 | `execute` throws (and catches) exactly on null/undefined; no call exactly for an unknown tag; otherwise one positional call to the command's `nodeId` |
| Commands.CallsOfAppend | src/lib/proxy.ts:130-133 | A batch's calls are those of its parts in order; elements never affect each other |
| Commands.SkippedElementIsTransparent | src/lib/proxy.ts:130-133 | An unknown, null or throwing element is skipped and the elements after it still run |
| Commands.CallsOfLength | src/lib/proxy.ts:130-133 | A batch makes exactly one call per element with a recognised tag |
| Commands.ExampleBatch | src/lib/proxy.ts:124-137 | `[on 3, bogus, off 5]` makes exactly the `on 3` and `off 5` calls |
| Commands.ScalarPayloadMakesNoCall | src/lib/proxy.ts:126-129 | A payload that is not an object, array or null is rejected without a call |
| Commands.NullPayloadMakesNoCall | src/lib/proxy.ts:126-135 | A lone `null` passes the object test, but the command throws, is caught, and calls nothing |
| Commands.ValueCommandDecodes | src/lib/mqttOzw.ts:191-198 | The adapter's `value` command reaches the driver as `setValue` with the same five arguments |
| Commands.OnCommandDecodes | src/lib/mqttOzw.ts:206-211 | The `on` command reaches the driver as `setNodeOn(nodeId)` |
| Commands.OffCommandDecodes | src/lib/mqttOzw.ts:217-222 | The `off` command reaches the driver as `setNodeOff(nodeId)` |
| Commands.LevelCommandDecodes | src/lib/mqttOzw.ts:229-235 | The `level` command reaches the driver as `setLevel(nodeId, value)` |
| Commands.LocationCommandDecodes | src/lib/mqttOzw.ts:242-248 | The `location` command reaches the driver as `setNodeLocation(nodeId, value)` |
| Commands.NameCommandDecodes | src/lib/mqttOzw.ts:255-261 | The `name` command reaches the driver as `setNodeName(nodeId, value)` |
| ZValue.FeatureOf | src/lib/value.ts:87-97 | The feature is `on` iff the class is 37, `brightness` iff it is 39, and none otherwise |
| ZValue.Notify | src/lib/value.ts:79-83 | Every registered callback, in registration order, is called once with the whole change list |
| ZValue.ParseIntPrefix | src/lib/value.ts:53 | `parseInt` is NaN iff the string does not start with a digit; otherwise a non-negative number |
| ZValue.WriteValue | src/lib/value.ts:47-54 | Class 37 writes 1 iff the input is `"1"`, else 0; class 39 writes `parseInt(input)`; any other class writes undefined |
| ZValue.ZVagValue.constructor | src/lib/value.ts:13-31 | A value starts with no fields, no callbacks and no calls made |
| ZValue.ZVagValue.On | src/lib/value.ts:42-44 | `on('update', cb)` appends the callback and changes nothing else |
| ZValue.ZVagValue.Update | src/lib/value.ts:62-85 | No list and no change unless `value_id`, `instance` and `index` are defined; otherwise the record becomes the merge, the changes are returned, and the callbacks hear of them only when non-empty |
| ZValue.ZVagValue.GetId | src/lib/value.ts:33-40 | The id has exactly the four fields node/class/instance/index, read from the record |
| ZValue.ZVagValue.SetCall | src/lib/value.ts:46-60 | Any given input string makes exactly one driver call with the id and the class-mapped value, even when that value is undefined |
| ZValue.MergeLookup | src/lib/value.ts:71-78 | After the merge, a field reads as the observation's value when the observation defines it, else as before |
| ZValue.MergeChangeNames | src/lib/value.ts:71-74 | Every reported change names a field of the observation |
| ZValue.MergeChangeIff | src/lib/value.ts:71-76 | A change `{name, old, cur}` is reported iff the observation defines `name` as `cur` and the stored `old` differs from it |
| ZValue.MergeNamesDistinct | src/lib/value.ts:71-76 | Each field is reported at most once |
| ZValue.MergeQuiet | src/lib/value.ts:71-78 | A merge that reports nothing leaves the record as it was |
| ZValue.MergeEmptyIff | src/lib/value.ts:71-84 | The change list is empty iff every defined field of the observation already holds its value |
| ZValue.MergeIdempotent | src/lib/value.ts:62-85 | Merging the same observation again reports nothing and changes nothing |
| ZValue.FreshRecordReportsAll | src/lib/value.ts:73-74 | A first observation reports every defined field as changed from undefined |
| ZValue.DimmerLevelRoundTrip | src/lib/value.ts:52-53 | A dimmer level written as its decimal string reaches the driver as that number |
| ZNode.InfoType | src/lib/node.ts:43-59 | The `info.type` table: "Power Strip" and "On/Off Power Switch" give an outlet; an unknown or non-string type gives none |
| ZNode.TypeFor | src/lib/node.ts:22-59 | `on` with `currentPower` gives an outlet, then `contactSensorState` a contact sensor, and only then the info table decides |
| ZNode.FieldsOf | src/lib/node.ts:140-147 | The records of a list of values, one per value, in the same order |
| ZNode.Without | src/lib/node.ts:159-163 | Key order after `delete`: exactly the other keys, still without duplicates |
| ZNode.ZVagNode.constructor | src/lib/node.ts:12-16 | A node starts not ready, without values, with the given info or `{}` |
| ZNode.ZVagNode.OnReady | src/lib/node.ts:18-20 | The node is ready afterwards; nothing else changes |
| ZNode.ZVagNode.Ordered | src/lib/node.ts:140-147 | The values in dictionary key order |
| ZNode.ZVagNode.GetValues | src/lib/node.ts:140-147 | Each stored value exactly once, in dictionary order, and nothing else |
| ZNode.ZVagNode.GetType | src/lib/node.ts:22-59 | The type the priority rules give for the values' features and `info.type` |
| ZNode.ZVagNode.UpdateValue | src/lib/node.ts:149-157 | The entry under the observation's `value_id` exists afterwards, created empty (and its key appended) only when absent, and holds the merge; throws iff the observation is missing or unidentified; info, readiness and the other entries are untouched |
| ZNode.ZVagNode.EntryFor | src/lib/node.ts:150-152 | The entry for a key, created empty and appended to the key order only when absent |
| ZNode.ZVagNode.RemoveValue | src/lib/node.ts:159-163 | Exactly that key goes, when present; every other entry stays and keeps its order |
| ZNode.ZVagNode.Update | src/lib/node.ts:165-173 | Every own field of the given info is copied over the node's info; a missing info changes nothing |
| ZNode.WithoutAbsent | src/lib/node.ts:159-163 | Removing an absent key keeps the key order unchanged |
| ZNode.TypeIsInfoType | src/lib/node.ts:24-40 | Values only ever provide `on` or `brightness`, so the overrides never apply and the info table alone decides |
| ZNode.FeaturesOfBound | src/lib/node.ts:24-32 | Only `on` and `brightness` ever appear as features |
| Client.Find | src/lib/index.ts:107 | `features.hasOwnProperty(name)`: the group's position iff a group has that name, else -1 |
| Client.FeatureList | src/lib/index.ts:103-105 | The feature of each value record, in `getValues()` order |
| Client.WithOutletFeatures | src/lib/index.ts:117-120 | An outlet always ends with an `outletInUse` feature, other types only if they had one; existing groups are kept and the added one is empty |
| Client.Plans | src/lib/index.ts:75-76 | One plan per array slot below `length`, in ascending order: position i holds slot i's plan |
| Client.ZVag.constructor | src/lib/index.ts:26-32 | No nodes and no devices; a missing or empty name becomes `zwave` |
| Client.ZVag.UpdateNode | src/lib/index.ts:57-63 | An unknown id gets a new node with the given info (or `{}`), not ready and without values; a known one gets the info copied in and keeps its readiness and values; other nodes are untouched |
| Client.ZVag.AddNode | src/lib/index.ts:58-59 | Only that slot changes, to a fresh node that is not ready and has no values; the array length covers the id |
| Client.ZVag.OnValue | src/lib/index.ts:40-47 | A known node keeps its info, readiness and other entries while its `updateValue` stores the value, and `length` is unchanged; an unknown node is created not ready with info `{}`, holding only that value's entry, and `length` grows to cover it; throws iff the observation is unidentified; other nodes are untouched |
| Client.ZVag.AddThenRoute | src/lib/index.ts:42-45 | For an unknown node: a new node, not ready, with info `{}`, whose only key is the value's `value_id` and whose entry is the value merged into `{}` (blank for an unidentified observation); `length` covers the new id; throws iff unidentified; other nodes are untouched |
| Client.ZVag.RouteValue | src/lib/index.ts:45 | The node is left as `updateValue` leaves it (info, readiness and other entries kept, the merge stored); other nodes are unchanged |
| Client.ZVag.OnNodeReady | src/lib/index.ts:49-54 | The node is ready, with the given info (or `{}`) if new, or the info merged over its own and its values kept if known; no other node changes; the device table becomes the registration of every slot's plan in order |
| Client.ZVag.UpdateReady | src/lib/index.ts:51-52 | After `updateNode` then `onReady`: the node is ready, with the given info (or `{}`) and no values if new, or the info merged over its own and its values kept if known; no other node changes |
| Client.ZVag.MergeInfo | src/lib/index.ts:61 | The node's info takes every own field of the given info; its values and readiness are kept; other nodes are unchanged |
| Client.ZVag.MarkReady | src/lib/index.ts:52 | The node is ready and keeps its info and values; other nodes are unchanged |
| Client.ZVag.CreateDevices | src/lib/index.ts:73-170 | Every slot in ascending order; a ready node's device is registered unless its topic is taken; only the device table changes |
| Client.ZVag.RegisterSlots | src/lib/index.ts:75-88 | The loop over slots `0 .. n-1` registers exactly the plans of those slots, in order |
| Client.ZVag.Plan | src/lib/index.ts:76-122 | The device a node gives: none unless it is ready, has a type and has a feature; else its topic, type and grouped features |
| Client.GroupFeatures | src/lib/index.ts:99-115 | The loop builds the feature groups of the values in order; `featureCnt` is the number of groups |
| Client.MapValueCases | src/lib/index.ts:65-70 | For class 113 index 9, the value maps to `'0'` iff it is `== 23`, else `'1'`; every other value passes unchanged |
| Client.Names | src/lib/index.ts:99-115 | The group names, one per group, in group order |
| Client.AddMemberNames | src/lib/index.ts:107-112 | A grouping step appends the feature's name iff it is new, and otherwise keeps the names |
| Client.GroupedNames | src/lib/index.ts:99-115 | The group names are distinct and are exactly the features present |
| Client.GroupedMembers | src/lib/index.ts:103-115 | A value is in a group iff its feature is the group's name; members keep `getValues()` order |
| Client.RegisterNext | src/lib/index.ts:86-88 | One more slot: its plan is registered iff there is one and its topic is not yet taken |
| Client.RegisterKeeps | src/lib/index.ts:86-88 | Registration never replaces a device already registered |
| Client.RegisterCovers | src/lib/index.ts:139-140 | Every planned topic ends up registered, and every registered topic was there before or is planned |
| Client.DeviceTopicInjective | src/lib/index.ts:83-84 | Different nodes or types never share a device topic, so one node never blocks another's device |
| Client.SlotTopicInjective | src/lib/index.ts:78-84 | `<type>/<name><i>` with a slash-free type determines the type and the slot |
| Client.TypeNameInjective | src/lib/index.ts:83 | Different device types have different names |
| Adapter.Calls | src/lib/mqttOzw.ts:99-113 | `forEach`: every callback of the list, in order, called once with the same arguments |
| Adapter.IndexOf | src/lib/mqttOzw.ts:303 | `indexOf`: the first position of the character, or -1 iff it is absent |
| Adapter.Capitalize | src/lib/mqttOzw.ts:307 | The first character upper-cased, and the length kept |
| Adapter.EventKey | src/lib/mqttOzw.ts:302-307 | No registry key iff no space occurs after the first character |
| Adapter.FirstLoose | src/lib/mqttOzw.ts:84-86 | The first stored record whose `value_id` is `==` to the id, or none iff no record matches |
| Adapter.Observe | src/lib/mqttOzw.ts:79-116 | An observation is classified as added iff no stored `value_id` matches, and is then appended; otherwise the list keeps its length |
| Adapter.SetValueCommand | src/lib/mqttOzw.ts:181-199 | A command is built iff the first argument is not null (reading its fields throws) |
| Adapter.Refresh | src/lib/mqttOzw.ts:87-95 | The inner loop overwrites only when the observation has a field named by the entry's position, and reports whether anything differed |
| Adapter.MqttOzw.constructor | src/lib/mqttOzw.ts:27-30 | No nodes, values, calls or commands; every registry list starts empty |
| Adapter.MqttOzw.On | src/lib/mqttOzw.ts:302-312 | Registers iff the event's key exists in the registry, appending to that list; otherwise nothing changes |
| Adapter.MqttOzw.Fire | src/lib/mqttOzw.ts:99-105 | Every callback of the list is called, in order; nothing else changes |
| Adapter.MqttOzw.CreateNode | src/lib/mqttOzw.ts:72-77 | An unknown node gets an empty record and `nodeAdded` fires; a known one is left alone |
| Adapter.MqttOzw.UpdateValue | src/lib/mqttOzw.ts:79-116 | The node is created if needed; the value list takes the observation as `Observe` says; the one matching callback list fires with node id, class id and observation |
| Adapter.MqttOzw.OnMsg | src/lib/mqttOzw.ts:118-171 | Unrecognised topics change nothing. A removal on a value topic drops the node's value list and fires `valueRemoved`; on a node topic it drops the node and fires `nodeRemoved`. An object on a value topic is handed to `updateValue`: the node named by its own `node_id` is created if unknown, that node's list takes it as `Observe` says, and the matching callback list fires. An object on a node topic is merged and schedules `nodeReady` iff `ready` is truthy |
| Adapter.MqttOzw.UpdateNode | src/lib/mqttOzw.ts:156-168 | The node is created if needed and takes every own field; a truthy `ready` schedules the ready callbacks |
| Adapter.MqttOzw.OnMessage | src/lib/mqttOzw.ts:39-45 | Topics outside the name change nothing; an empty or `null` body is a removal; an object is handled by `onMsg`, so on a value topic it is an observation with `updateValue`'s effect; any other parsed body changes nothing |
| Adapter.MqttOzw.Send | src/lib/mqttOzw.ts:56-70 | One non-retained publish of the command on `<name>/set` |
| Adapter.MqttOzw.SetValue | src/lib/mqttOzw.ts:181-199 | Sends the `value` command, or throws and sends nothing when the id is null; never touches the mirror |
| Adapter.MqttOzw.SetNodeOn | src/lib/mqttOzw.ts:206-211 | Sends exactly the `on` command; the mirror is untouched |
| Adapter.MqttOzw.SetNodeOff | src/lib/mqttOzw.ts:217-222 | Sends exactly the `off` command; the mirror is untouched |
| Adapter.MqttOzw.SetLevel | src/lib/mqttOzw.ts:229-235 | Sends exactly the `level` command; the mirror is untouched |
| Adapter.MqttOzw.SetNodeLocation | src/lib/mqttOzw.ts:242-248 | Sends exactly the `location` command; the mirror is untouched |
| Adapter.MqttOzw.SetNodeName | src/lib/mqttOzw.ts:255-261 | Sends exactly the `name` command; the mirror is untouched |
| Adapter.IndexOfAfter | src/lib/mqttOzw.ts:303 | The first occurrence of a character comes right after a prefix that does not contain it |
| Adapter.EventKeyOfTwoWords | src/lib/mqttOzw.ts:306-307 | `"a b"` maps to `a` followed by `b` capitalised |
| Adapter.EventKeyIgnoresThirdWord | src/lib/mqttOzw.ts:306 | `split(" ", 2)` ignores words after the second |
| Adapter.NodeReadyKey | src/lib/mqttOzw.ts:302-311 | `"node ready"` registers under `nodeReady` |
| Adapter.EventKeyRejects | src/lib/mqttOzw.ts:303-305 | A name without a space, or starting with one, is rejected |
| Adapter.ObserveNew | src/lib/mqttOzw.ts:110-114 | An unmatched `value_id` is appended and classified as added |
| Adapter.ObserveKnownIsRefresh | src/lib/mqttOzw.ts:88-106 | For a known `value_id` and an observation with no field named like a decimal position, the result is "refreshed" and nothing changes |
| Adapter.OverwriteLookup | src/lib/mqttOzw.ts:88-94 | Each field named like an observation field takes the one value `val[k]` |
| Adapter.SetValueByIdIsPositional | src/lib/mqttOzw.ts:183-189 | The id form of `setValue` sends the same command as the positional form |
| Adapter.SetValueReachesDriver | src/lib/mqttOzw.ts:181-199 | Every `value` command the adapter sends is dispatched by the gateway as `setValue` with the same arguments |
| Gateway.FirstMatchFrom | src/lib/proxy.ts:228-233 | The search stops at the first present entry with a `===` `value_id`, or finds none iff there is none |
| Gateway.Upsert | src/lib/proxy.ts:234-243 | The list grows by one iff the id is unknown |
| Gateway.MatchedAt | src/lib/proxy.ts:253-264 | The collected positions lie inside the list |
| Gateway.RemovalMessages | src/lib/proxy.ts:262 | Every removal is an empty, retained publish |
| Gateway.Removed | src/lib/proxy.ts:248-268 | The length is kept; every selected entry becomes a hole; every other entry stays |
| Gateway.RemovedAsWritten | src/lib/proxy.ts:265-266 | As written, the loop clears positions `0 .. del.length-1` and keeps the rest |
| Gateway.ZVagProxy.constructor | src/lib/proxy.ts:67-74 | The prefix is the configured one when non-empty, else `zwave/`; nothing is mirrored, published or called |
| Gateway.ZVagProxy.Push | src/lib/proxy.ts:110-122 | One publish of `<prefix>/<topic>`, retained unless told otherwise |
| Gateway.ZVagProxy.Execute | src/lib/proxy.ts:139-179 | At most one driver call: the one the tag names; the mirror is untouched |
| Gateway.ZVagProxy.OnMqttMessage | src/lib/proxy.ts:124-137 | The driver calls are exactly those of the payload: element by element for an array, one command for an object |
| Gateway.ZVagProxy.CreateNode | src/lib/proxy.ts:185-187 | The node's record starts over empty |
| Gateway.ZVagProxy.OnNodeUpdate | src/lib/proxy.ts:198-212 | The record exists and takes every own field of the info; the merged record is published, retained, iff `ready` is truthy |
| Gateway.ZVagProxy.OnNodeReady | src/lib/proxy.ts:214-221 | Sets `_ready`, then `_values` to the node's value ids; throws iff no value of the node was ever seen; publishes only when `ready` is truthy |
| Gateway.ZVagProxy.OnValueUpdate | src/lib/proxy.ts:223-247 | The list takes the event as `Upsert` says; the merged record is published, retained, under its own class/instance/index |
| Gateway.ZVagProxy.DestroyValue | src/lib/proxy.ts:248-268 | Every selected entry's removal is published in list order; then, as written, the first as many positions as there were matches become holes and every other entry stays; an unknown node changes nothing |
| Gateway.ZVagProxy.PublishRemovals | src/lib/proxy.ts:253-264 | The collected positions are `MatchedAt`, and the publishes are their removal messages in order |
| Gateway.ZVagProxy.PublishIfSelected | src/lib/proxy.ts:254-263 | An entry's removal is published iff it is present and selected |
| Gateway.ZVagProxy.DestroyNode | src/lib/proxy.ts:189-196 | Nothing for an unknown node; otherwise the node's removal is published first, the node is deleted, and its values go through `destroyValue` without an id: every removal is published and the first as many positions as there were values become holes |
| Gateway.ZVagProxy.PushEvent | src/lib/proxy.ts:101-106 | A scene or node event is published on `node<n>/scene` or `node<n>/event`, not retained |
| Gateway.DeleteAll | src/lib/proxy.ts:265-267 | `for (k in del)` runs over the positions of `del`, so positions `0 .. del.length-1` become holes and the rest stay |
| Gateway.ValueIds | src/lib/proxy.ts:219 | `map(v => v.value_id)`: one id per entry; a hole stays undefined |
| Gateway.MatchedAtIff | src/lib/proxy.ts:253-264 | A position is collected iff its entry is present and selected; positions ascend |
| Gateway.UpsertKeepsId | src/lib/proxy.ts:238-242 | Merging an event into the entry it matched keeps that entry's id |
| Gateway.UpsertIdsUnique | src/lib/proxy.ts:223-243 | The list never holds two present entries with `===` ids |
| Gateway.UpsertContent | src/lib/proxy.ts:234-243 | The published record reads each field of the event as the event's value, and every other field as before (or undefined if new) |
| Gateway.UpsertThenFind | src/lib/proxy.ts:228-243 | After an event, its id's search finds the merged record, so the id is never listed twice |
| Gateway.RemovedDeletesMatched | src/lib/proxy.ts:253-267 | The intended deletion clears exactly the collected positions and keeps every other entry |
| Gateway.RemovedAsWrittenKeepsAfterHole | src/lib/proxy.ts:189-196 | With a hole in front of node 3's one value, `destroyNode(3)` publishes the value's removal but keeps the value in the mirror |
| Gateway.RemovedAsWrittenAgreesIff | src/lib/proxy.ts:253-266 | The deletion as written equals the intended one exactly when every present entry is selected iff its position is below the number of matches |
| Gateway.RemovedAsWrittenDeletesWrongEntry | src/lib/proxy.ts:265-266 | On node 3 with a binary-switch entry then a multilevel one, removing the multilevel value clears the binary-switch entry instead |
| Gateway.EventSubUnrecognised | src/lib/proxy.ts:104 | Scene and event topics match neither adapter pattern, so the adapter ignores them |

## Left out

Not modelled:

- **Transport and parsing**
  - MQTT connection, subscription, acknowledgement and publish-failure logging: publishes are appended to a log.
  - `JSON.parse` and `JSON.stringify`: payloads are JSON values. Parse errors at src/lib/proxy.ts:125 and src/lib/mqttOzw.ts:41 go uncaught in the source.
  - A hole in a list becoming `null` when stringified.
  - Objects whose field list repeats a name. `JSON.parse` never produces one (a repeated name keeps its last value), while `Lookup` reads the first field of that name. Payload records reaching `OnMessage` and `OnMqttMessage` are taken to have distinct names, and this is not required of them.
- **Values and JavaScript semantics**
  - Floating point: numbers are integers.
  - `deep-equals`: modelled structurally, with arrays and objects never equal by reference.
  - `==` coercions beyond `null == undefined`.
  - `parseInt` beyond a leading run of ASCII digits.
  - `toUpperCase` beyond ASCII letters.
  - The key order JavaScript uses for integer-like keys.
  - Fields named like `Object.prototype` members.
  - Aliasing of records shared between the driver and the mirrors: records are values.
- **The setTimeout delay**: a scheduled `nodeReady` is recorded in `readyTimers`; firing it 5 seconds later is not modelled.
- **Driver and hemtjanst calls**
  - The driver itself: its calls are logged.
  - The hemtjanst `Device`/`Client`/`utils` calls: the device name, manufacturer, model, serial number and last-will fields; `addFeature`, `onSet` and `dev.update`, with the change callbacks they install (src/lib/index.ts:90-97, 123-163).
  - `utils.typeName` is taken to be the enum member's name.
- **Adapter messages**
  - A parsed payload that is neither an object nor `null` (a number, string or array) is ignored. The source would hand it to `onMsg`.
  - The unused search for the removed value's index at src/lib/mqttOzw.ts:131-142.
- **Argument shapes**
  - A `null` filter in the gateway's `destroyValue` and a `null` constructor argument both throw in the source. The model takes an optional filter and an optional prefix.
- **Logging and stubs**: debug logging, the empty `onScanComplete`, `disconnect`, and the CLI, mock and test files.

Deliberately weaker or reordered contracts:

- Adapter.SetValueReachesDriver: a command's arguments reach the gateway as sent. `JSON.stringify` sends `NaN` as `null`, so when `parseInt` gives `NaN` for class 39 (src/lib/value.ts:53), the source's gateway calls `setValue(…, null)`; numbers here are integers and carry no `NaN`.
- Client.ZVag.CreateDevices: in the source, the taken-topic check comes before grouping, but grouping has no effect. The model plans first and then skips taken topics, with the same outcome.

## Findings

| source | as written | input that shows it | evidently intended | confidence | as-written member | corrected member |
|---|---|---|---|---|---|---|
| src/lib/proxy.ts:265-266 | `for (let k in del) delete(this.values[node][k])` iterates over the positions of `del` itself, so it deletes entries `0 .. del.length-1` | Node 3 holds `[binary switch 37-1-0, multilevel 38-1-0]`. `destroyValue(3, {class_id: 38, instance: 1, index: 0})` publishes the multilevel removal but leaves `[hole, multilevel]` | Delete the entries whose positions were collected (`for … of`), leaving `[binary switch, hole]` | high (not executed) | Gateway.RemovedAsWrittenDeletesWrongEntry | Gateway.RemovedDeletesMatched |
