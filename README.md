# beet core, modelled in Dafny

beet is a behaviour-tree engine built on the Bevy ECS. This project models
the parts of it whose behaviour follows from their own code:

- how run results bubble from an action to its parent's observers;
- how a `BeetBuilder` tree is spawned into a world;
- the `InsertWhileRunning` lifecycle;
- the `q_table_selector` tick;
- the depth-sensor scorer;
- the steer-target despawn rule;
- the healing and end-of-game rules of the Malenia example;
- the switches and message texts of the debug plugin;
- the RSX node tree and its slot insertion;
- the mapping of parsed markup into template trees;
- the inspector options map;
- the channel drain `try_recv_all`;
- the BERT model-id/revision defaults;
- the object heap of the generated wasm bindings.

There is one module per source file, plus `Ecs`, which holds shared
definitions (entities, `Option`, `RunResult`, decimal rendering, runs of
consecutive ids).

Bevy's world is modelled as explicit maps and sets of components, with a
deferred command queue that a flush applies in order. Systems and observers
that change components are classes whose fields are those maps, and whose
methods are proved equal to a specification function on the old state.
What the source promises is proved about those functions as lemmas.

## Model

| member | source | states |
|---|---|---|
| Response.Hop | crates/beet_flow/src/flow/response.rs:38-53 | An observer entity or a `NoBubble` action stops the hop. So does a root action, or a parent without `ActionObservers`. Otherwise exactly one trigger goes to the parent's observer list, with payload and origin kept, `prevAction` = old action and `action` = parent. The hop is emitted exactly when no stop rule applies. |
| Response.Bubble | crates/beet_flow/src/flow/response.rs:17-21 | `trigger_bubble` re-triggers an identical copy of the event, targeted at its own action only. |
| Response.Commands.PropagateResponseToParentObservers | crates/beet_flow/src/flow/response.rs:30-53 | Appends to the command queue exactly the trigger `Hop` yields, or nothing. |
| Response.Commands.TriggerBubble | crates/beet_flow/src/flow/response.rs:17-21 | Appends exactly `Bubble(ev)` to the command queue. |
| Response.BubbleChain | crates/beet_flow/src/flow/response.rs:44-63 | The loop over parent links yields exactly the `Chain` of forwarded hops, on any acyclic hierarchy. |
| Response.ChainKeepsPayloadAndOrigin | crates/beet_flow/src/flow/response.rs:47-49 | Every hop of a chain carries the original payload and origin. |
| Response.ChainIsLinked | crates/beet_flow/src/flow/response.rs:44-50 | Hop k's `prevAction` is hop k-1's action (or the start action), and its action is the parent of that `prevAction`. |
| Response.ChainNeverLeavesNoBubble | crates/beet_flow/src/flow/response.rs:38-42 | No hop is ever forwarded out of a `NoBubble` node. |
| Response.ChainReachesRoot | crates/beet_flow/src/flow/response.rs:44 | With no stop rule in force, the chain is empty exactly at a root, and otherwise its last hop ends at a parentless action. |
| Response.Fanout | crates/beet_flow/src/flow/response.rs:50 | `trigger_targets` delivers the event to each target in list order, once each. |
| Response.BubblesUp | crates/beet_flow/src/flow/response.rs:71-113 | The `bubbles_up` test: five deliveries. Delivery 0 is (origin gc, action gc, prev PLACEHOLDER), 1 is (action child, prev gc), 3 is (action parent, prev child). |
| Response.DispatchSplit | crates/beet_flow/src/flow/response.rs:50-63 | Dispatching `a + b` replays all of `a`'s cascade first, then `b`'s with the fuel `a` left; what remains of the fuel composes the same way. |
| Response.DispatchEachIsDispatch | crates/beet_flow/src/flow/response.rs:50-63 | Dispatching a list is dispatching each of its deliveries one after the other, in list order, each to completion. |
| Response.DispatchDepthFirst | crates/beet_flow/src/flow/response.rs:50-63 | Dispatching one delivery is that delivery, then each event it triggers dispatched to completion in turn: depth-first. |
| Response.SingleEffectChain | crates/beet_flow/src/flow/response.rs:50-63 | When each delivery triggers only the next and the last triggers nothing, dispatching the first with enough fuel observes exactly the chain, in order. |
| Response.BubblesUpChain | crates/beet_flow/src/flow/response.rs:71-113 | In the test hierarchy the chain from the grandchild is exactly the hops to child and to parent. |
| Builder.New | crates/beet_ecs/src/graph/beet_builder.rs:33-44 | No children and no queued registrations, both default flags set, and the given bundle. |
| Builder.WithType | crates/beet_ecs/src/graph/beet_builder.rs:45-50 | One registration is appended after the queued ones; nothing else changes. |
| Builder.Child | crates/beet_ecs/src/graph/beet_builder.rs:126-129 | The child is appended after all existing siblings, which keep their order; nothing else changes. |
| Builder.Roots | crates/beet_ecs/src/graph/beet_builder.rs:112-114 | The children's root ids, in child order. |
| Builder.World.Register | crates/beet_ecs/src/graph/beet_builder.rs:52-58 | The world journal gains one registration. |
| Builder.World.SpawnBundle | crates/beet_ecs/src/graph/beet_builder.rs:36-39 | Registers the bundle type, then spawns one fresh entity with the bundle's components and name. |
| Builder.World.AddChildTo | crates/beet_ecs/src/graph/beet_builder.rs:112-114 | The world after `add_child` of a child to a parent. |
| Builder.World.InsertDefaults | crates/beet_ecs/src/graph/beet_builder.rs:83-91 | Adds `RunTimer` and `RootIsTargetAgent`, and the default name only when the entity has no `Name`. |
| Builder.World.InsertRoot | crates/beet_ecs/src/graph/beet_builder.rs:63-65 | Adds `BeetRoot` and `Running`. |
| Builder.World.BuildRecursive | crates/beet_ecs/src/graph/beet_builder.rs:93-124 | Equals the recursive build function on the old world. |
| Builder.World.RegisterEach | crates/beet_ecs/src/graph/beet_builder.rs:98-100 | The queued registrations run in order, as `RegisterAll` describes. |
| Builder.World.BuildChildren | crates/beet_ecs/src/graph/beet_builder.rs:104-108 | The children are built one after the other, in list order, as `BuildAll` describes. |
| Builder.World.AddChildrenTo | crates/beet_ecs/src/graph/beet_builder.rs:112-114 | Each child root is linked to the parent, in order, as `AddChildren` describes. |
| Builder.World.BuildTree | crates/beet_ecs/src/graph/beet_builder.rs:60-67 | The tree and the world equal `Build` on the old world. |
| Builder.Registrations | crates/beet_ecs/src/graph/beet_builder.rs:98-100 | One journal entry per queued registration, in queue order. |
| Builder.RegisterAllFacts | crates/beet_ecs/src/graph/beet_builder.rs:98-100 | Running the queued registrations only appends them to the journal. |
| Builder.AddChildrenFrame | crates/beet_ecs/src/graph/beet_builder.rs:112-114 | Linking children changes only the parent's and the children's links. |
| Builder.AddChildFacts | crates/beet_ecs/src/graph/beet_builder.rs:112-114 | One link appends the child to the parent's children and sets the child's parent. Every other entity stays as it was. |
| Builder.AddChildrenLinks | crates/beet_ecs/src/graph/beet_builder.rs:112-114 | Linking distinct fresh children appends them, in order, to the parent's children, and makes each point back at the parent. |
| Builder.SpawnAllocates | crates/beet_ecs/src/graph/beet_builder.rs:101 | Spawning allocates exactly one fresh entity holding the bundle. |
| Builder.BuildRecFacts | crates/beet_ecs/src/graph/beet_builder.rs:93-124 | Building a subtree allocates exactly `Size(b)` consecutive fresh entities and leaves older ones untouched. The first new entity is the root. All new entities are marked visited. |
| Builder.BuildAllFacts | crates/beet_ecs/src/graph/beet_builder.rs:104-108 | Children are built one after the other. One tree per child; roots are fresh and strictly increasing in child order. |
| Builder.BuildPreorder | crates/beet_ecs/src/graph/beet_builder.rs:93-124 | The returned tree's preorder is a run of consecutive fresh ids: depth-first, parent before children, children in list order. |
| Builder.BuildAllPreorder | crates/beet_ecs/src/graph/beet_builder.rs:104-108 | Siblings' subtrees follow each other in list order. |
| Builder.BuildMirrors | crates/beet_ecs/src/graph/beet_builder.rs:93-124 | The returned tree mirrors the builder's shape: one node per builder, children in order. |
| Builder.BuildAllMirrors | crates/beet_ecs/src/graph/beet_builder.rs:104-108 | One tree per child builder, each mirroring it. |
| Builder.BuildJournal | crates/beet_ecs/src/graph/beet_builder.rs:45-50 | A node's `with_type` registrations are recorded, then its own bundle registration and spawn, before anything of its children. |
| Builder.VisitedCount | crates/beet_ecs/src/graph/beet_builder.rs:102-117 | When the default name is chosen, the visited set holds every earlier node plus the whole subtree. |
| Builder.FinishRoot | crates/beet_ecs/src/graph/beet_builder.rs:110-123 | Finishing an unlinked root links it, parentless, to its distinct children. It adds the default markers and, when it has no name, the default name, exactly when defaults are on. |
| Builder.BuildRoot | crates/beet_ecs/src/graph/beet_builder.rs:110-123 | The root gets the bundle's components. Its name is its own, or "Node <visited count>" when defaults are on and it has none. It has `RunTimer`/`RootIsTargetAgent` exactly when defaults are on, and no parent. Its children are the child roots in builder order, each pointing back. |
| Builder.BuildMarksRoot | crates/beet_ecs/src/graph/beet_builder.rs:60-67 | `build` puts `BeetRoot` and `Running` on the root exactly when `insert_root_defaults` is set, and on no other new entity. |
| InsertWhileRunning.ApplyOne | crates/beet_ecs/src/actions/flow/insert_while_running.rs:19-29 | An insert command sets the entity's component; a remove command deletes it. |
| InsertWhileRunning.StartRunning | crates/beet_ecs/src/actions/flow/insert_while_running.rs:14-24 | Queues an insert of the wrapped value only when the entity carries the wrapper; nothing is applied yet. |
| InsertWhileRunning.StopRunning | crates/beet_ecs/src/actions/flow/insert_while_running.rs:25-30 | Always queues a removal; nothing is applied yet. |
| InsertWhileRunning.ApplyAppend | crates/beet_ecs/src/actions/flow/insert_while_running.rs:47-51 | Flushing two batches is flushing their concatenation. |
| InsertWhileRunning.LastFor | crates/beet_ecs/src/actions/flow/insert_while_running.rs:19-29 | The last queued command about an entity, or none. |
| InsertWhileRunning.LastCommandWins | crates/beet_ecs/src/actions/flow/insert_while_running.rs:19-29 | After a flush the last command about an entity decides its component: insert gives its value, removal gives none, no command leaves it as it was. |
| InsertWhileRunning.DeferredLifecycle | crates/beet_ecs/src/actions/flow/insert_while_running.rs:40-54 | The `works` test. Absent after the run; present after the first flush; still present after the result; absent after the second flush. |
| InsertWhileRunning.StartWithoutWrapper | crates/beet_ecs/src/actions/flow/insert_while_running.rs:19 | A run on an entity without the wrapper changes nothing. |
| InsertWhileRunning.World.OnStartRunning | crates/beet_ecs/src/actions/flow/insert_while_running.rs:14-24 | The store after the observer is `StartRunning` of the old store. |
| InsertWhileRunning.World.OnStopRunning | crates/beet_ecs/src/actions/flow/insert_while_running.rs:25-30 | The store after the observer is `StopRunning` of the old store. |
| InsertWhileRunning.World.FlushCommands | crates/beet_ecs/src/actions/flow/insert_while_running.rs:47 | Applies the queue in order and empties it. |
| QTableSelector.AnyChildRunning | crates/beet_ml/src/rl/q_table_selector.rs:31 | True exactly when some child carries `Running`. |
| QTableSelector.FirstChildResult | crates/beet_ml/src/rl/q_table_selector.rs:42 | The first child in child order that has a `RunResult`, with its index and result; none when no child has one. |
| QTableSelector.Step | crates/beet_ml/src/rl/q_table_selector.rs:30-68 | Skips a selector whose child is running or whose agent lacks the learning components. Otherwise `current_step` rises by one, and `Failure` is queued on the action exactly when the first child result is a failure. Nothing else changes. |
| QTableSelector.Inserts | crates/beet_ml/src/rl/q_table_selector.rs:46 | One `Failure` insert per failed selector, in order. |
| QTableSelector.TickAllFrame | crates/beet_ml/src/rl/q_table_selector.rs:20-70 | A tick writes only selectors and the command queue; the set of selectors is unchanged. |
| QTableSelector.TickAllQueue | crates/beet_ml/src/rl/q_table_selector.rs:20-70 | The queue gains exactly one failure per failed episode, in visiting order. |
| QTableSelector.TickAllEffect | crates/beet_ml/src/rl/q_table_selector.rs:20-70 | One tick raises each visited, advancing selector's step by exactly one and leaves the rest untouched. It queues exactly the failed episodes, in visiting order, and changes nothing else. |
| QTableSelector.SelectorWorld.Tick | crates/beet_ml/src/rl/q_table_selector.rs:20-70 | The system's loop equals `TickAll` on the old state. |
| DepthSensor.NewSensor | crates/beet_core/src/robotics/depth_sensor.rs:16-30 | The reading starts at the maximum depth of 2.0. The size is (0.02, 0.02, 0.04). The position is the offset raised by half the height. |
| DepthSensor.DefaultScorer | crates/beet_core/src/robotics/depth_sensor.rs:43-52 | Score `Fail`, threshold 0.5, weights 40 and 60. |
| DepthSensor.NewScorer | crates/beet_core/src/robotics/depth_sensor.rs:54-63 | The given parameters, score `Fail`. |
| DepthSensor.NextScore | crates/beet_core/src/robotics/depth_sensor.rs:71-75 | A reading beyond the threshold scores the low weight, otherwise the high weight; never `Fail`. |
| DepthSensor.Rescore | crates/beet_core/src/robotics/depth_sensor.rs:76-79 | The scorer is written exactly when the score changes, and then takes the new score. |
| DepthSensor.RescoreIdempotent | crates/beet_core/src/robotics/depth_sensor.rs:71-79 | A second reading of the same value writes nothing. |
| DepthSensor.ScoreAllEffect | crates/beet_core/src/robotics/depth_sensor.rs:65-82 | A visited scorer whose target's sensor changed gets that reading's score; every other scorer is untouched. A scorer is written exactly when its score changed. Sensors and targets stay. |
| DepthSensor.ScoreAllTwice | crates/beet_core/src/robotics/depth_sensor.rs:65-82 | Running the system twice on the same readings is running it once. |
| DepthSensor.ScorerWorld.DepthSensorScorer | crates/beet_core/src/robotics/depth_sensor.rs:65-82 | The loop equals `ScoreAll` on the old state. |
| DespawnSteerTarget.Act | crates/beet_core/src/steering/steering_actions/despawn_steer_target.rs:8-24 | Commands are queued exactly when the agent's steer target is a live entity: despawn it, then remove the agent's `SteerTarget`. |
| DespawnSteerTarget.ApplyOne | crates/beet_core/src/steering/steering_actions/despawn_steer_target.rs:18-21 | Despawn removes the entity and its components; removal drops the steer target. Commands on dead entities do nothing. |
| DespawnSteerTarget.Visit | crates/beet_core/src/steering/steering_actions/despawn_steer_target.rs:11-14 | A node the query does not match (no `Running`, no `DespawnSteerTarget` or no `TargetAgent`) adds nothing; a matched node adds its agent's commands. |
| DespawnSteerTarget.QueueAppend | crates/beet_core/src/steering/steering_actions/despawn_steer_target.rs:13 | The nodes are visited in query order: two runs of nodes queue the first run's commands, then the second's. |
| DespawnSteerTarget.IgnoresUnselected | crates/beet_core/src/steering/steering_actions/despawn_steer_target.rs:11 | Inserting a node lacking `Running`, the action or a `TargetAgent` anywhere in the query order changes nothing queued. |
| DespawnSteerTarget.DespawnsLiveTarget | crates/beet_core/src/steering/steering_actions/despawn_steer_target.rs:8-24 | For a running action node whose agent steers towards a live entity: after the system and a flush the target is gone and the agent has no steer target. Only the target dies. |
| DespawnSteerTarget.IgnoresOtherwise | crates/beet_core/src/steering/steering_actions/despawn_steer_target.rs:14-22 | When every matched node's agent has a missing, positional or dead target, nothing is queued. |
| DespawnSteerTarget.SteerWorld.DespawnSteerTargets | crates/beet_core/src/steering/steering_actions/despawn_steer_target.rs:8-24 | The loop filters the nodes as the query does and appends exactly `Queue` of the old state; the rest of the world is unchanged. |
| DespawnSteerTarget.SteerWorld.FlushCommands | crates/beet_core/src/steering/steering_actions/despawn_steer_target.rs:18-21 | Applies the queue in order and empties it. |
| Malenia.HealSpec | examples/flow/malenia.rs:209-218 | Healing succeeds exactly when health is below 50 and a potion is left, and then costs one potion for 30 health. A failure changes nothing. |
| Malenia.AttemptsConserve | examples/flow/malenia.rs:209-218 | Over n attempts, potions drunk plus potions left equals the initial count. Health gained is 30 per success, and successes are at most n. |
| Malenia.Arena.TryHealSelf | examples/flow/malenia.rs:200-219 | Looks up the origin, not the action. A missing origin is the panic path and changes nothing. Otherwise the result is triggered on the action and the origin's vitals are updated as `Heal` says. |
| Malenia.VerdictsCount | examples/flow/malenia.rs:134-150 | Exactly one verdict per changed fighter at or below zero health, and none when all changed fighters stand. |
| Malenia.HealthHandler | examples/flow/malenia.rs:134-150 | The loop yields `Verdicts` in query order, with one exit event per verdict. |
| BeetDebugPlugin.Default | crates/beet_flow/src/control_flow/beet_debug_plugin.rs:21-30 | Run log on, running and result logs off, stdout disabled. |
| BeetDebugPlugin.WithResult | crates/beet_flow/src/control_flow/beet_debug_plugin.rs:33-40 | Run and result logs on, running log off, stdout disabled. |
| BeetDebugPlugin.WithAll | crates/beet_flow/src/control_flow/beet_debug_plugin.rs:41-48 | Every log on, stdout disabled. |
| BeetDebugPlugin.Markers | crates/beet_flow/src/control_flow/beet_debug_plugin.rs:66-80 | One marker per set flag; the stdout marker exactly when stdout is not disabled. |
| BeetDebugPlugin.ConfigMarkers | crates/beet_flow/src/control_flow/beet_debug_plugin.rs:21-80 | The markers each of the three configurations initialises. |
| BeetDebugPlugin.App.Build | crates/beet_flow/src/control_flow/beet_debug_plugin.rs:52-81 | Registers the four handlers, always, and adds exactly `Markers(p)` as resources. |
| BeetDebugPlugin.NewWithOptional | crates/beet_flow/src/control_flow/beet_debug_plugin.rs:98-107 | The prefix, ": ", then the name when there is one and the entity's text otherwise. |
| BeetDebugPlugin.LogGating | crates/beet_flow/src/control_flow/beet_debug_plugin.rs:131-161 | A run or result message is emitted exactly when its flag is on. It reads "OnRun: who" or "Success: who" / "Failure: who", and reaches stdout exactly when stdout is enabled. |
| BeetDebugPlugin.DefaultIsQuiet | crates/beet_flow/src/control_flow/beet_debug_plugin.rs:21-30 | With the default configuration, results are never logged and nothing is printed. |
| BeetDebugPlugin.RunningLine | crates/beet_flow/src/control_flow/beet_debug_plugin.rs:168-171 | "Running: " followed by the name, or the entity's text when unnamed. |
| BeetDebugPlugin.RunningLines | crates/beet_flow/src/control_flow/beet_debug_plugin.rs:60-62 | No lines without the running marker; otherwise one line per running entity in query order. |
| BeetDebugPlugin.LogRunning | crates/beet_flow/src/control_flow/beet_debug_plugin.rs:163-175 | The loop yields `RunningLines`. |
| RsxNode.Default | crates/beet_rsx/src/rsx/rsx_node.rs:25-27 | The empty fragment. |
| RsxNode.HtmlNodeKinds | crates/beet_rsx/src/rsx/rsx_node.rs:38-46 | A node is not html exactly when it is a block, a fragment or a component. |
| RsxNode.AnyBlock | crates/beet_rsx/src/rsx/rsx_node.rs:231-237 | True exactly when some direct child is a block. |
| RsxNode.AnyRustAttribute | crates/beet_rsx/src/rsx/rsx_node.rs:239-248 | True exactly when some attribute is a block or a block value. |
| RsxNode.ContainsShallow | crates/beet_rsx/src/rsx/rsx_node.rs:231-248 | A block in a grandchild does not count; literal-only attributes and text contain no rust. |
| RsxNode.SlotName | crates/beet_rsx/src/rsx/rsx_node.rs:106-122 | The value of the first `name` key-value attribute, or "default" when there is none. |
| RsxNode.TryInsertFacts | crates/beet_rsx/src/rsx/rsx_node.rs:90-149 | The nodes come back exactly when no slot for the name is reachable, and then unchanged with the tree untouched. When placed, the tree's size grows by the inserted nodes' size. |
| RsxNode.TryInsertAllFacts | crates/beet_rsx/src/rsx/rsx_node.rs:129-135 | The same for a list of children, which keeps its length. |
| RsxNode.FirstSlotPath | crates/beet_rsx/src/rsx/rsx_node.rs:90-149 | The path to the slot the search finds first is empty exactly when the node is itself a slot element for the name. |
| RsxNode.FirstSlotPathLeadsToSlot | crates/beet_rsx/src/rsx/rsx_node.rs:106-126 | That path is valid and ends at a `slot` element whose name is the one asked for. |
| RsxNode.TryInsertPlaces | crates/beet_rsx/src/rsx/rsx_node.rs:90-149 | When a slot is reachable, the insertion is exactly appending the nodes after the children of the first slot found, in preorder, and nothing comes back. |
| RsxNode.ListPlaces | crates/beet_rsx/src/rsx/rsx_node.rs:98-104 | In a list of children only the first child with a reachable slot receives the nodes, placed as in that child. |
| RsxNode.AppendAtEnd | crates/beet_rsx/src/rsx/rsx_node.rs:122-125 | Appending at a path keeps the path valid and extends the children of the element there by exactly the nodes, in order, after its own. |
| RsxNode.AppendAtStep | crates/beet_rsx/src/rsx/rsx_node.rs:98-143 | Appending at a path changes only the child on the path: the node keeps its kind, tag, attributes and number of children. |
| RsxNode.NamedSlotReceives | crates/beet_rsx/src/rsx/rsx_node.rs:106-125 | In a `div` holding text and a `slot` named "header", nodes sent to "header" go after that slot's children and the text stays first. |
| RsxNode.FirstSlot | crates/beet_rsx/src/rsx/rsx_node.rs:129-135 | The first child with a reachable slot. |
| RsxNode.FirstMatchOnly | crates/beet_rsx/src/rsx/rsx_node.rs:129-135 | Only the first child with a reachable slot changes; earlier and later siblings stay. |
| RsxNode.WithSlotsSpec | crates/beet_rsx/src/rsx/rsx_node.rs:76-83 | `with_slots` succeeds exactly when a slot for the name is reachable, and then is the tree with the nodes appended to the first slot found. |
| RsxNode.UnnamedSlotIsDefault | crates/beet_rsx/src/rsx/rsx_node.rs:106-122 | A `<slot>` with no name receives nodes sent to "default", after its own children. |
| RsxNode.FindSlotName | crates/beet_rsx/src/rsx/rsx_node.rs:106-122 | The attribute search returns `SlotName`: the first `name` value, or "default". |
| RsxNode.TryInsertSlots | crates/beet_rsx/src/rsx/rsx_node.rs:90-149 | With its attribute and child loops, equals `TryInsert`. |
| RsxNode.TryInsertChildren | crates/beet_rsx/src/rsx/rsx_node.rs:129-135 | The child loop equals `TryInsertAll`. |
| RstmlToRsxTemplate.LitToString | crates/beet_rsx/parser/src/parse_rsx/rstml_to_rsx_template.rs:188-203 | Booleans become "true"/"false" and strings their value. Only the C-string literal fails. |
| RstmlToRsxTemplate.MapTokens | crates/beet_rsx/parser/src/parse_rsx/rstml_to_rsx_template.rs:37-63 | Fails exactly when mapping the nodes fails. One top-level node is the root node itself; otherwise the nodes are wrapped in a fragment. The location is kept. |
| RstmlToRsxTemplate.MapAttributesFacts | crates/beet_rsx/parser/src/parse_rsx/rstml_to_rsx_template.rs:152-186 | Attributes fail exactly on a C-string literal. Otherwise their trackers are the next consecutive counter values, one per block or expression attribute. |
| RstmlToRsxTemplate.MapNodeFacts | crates/beet_rsx/parser/src/parse_rsx/rstml_to_rsx_template.rs:72-151 | Mapping fails exactly on a reachable custom node or element C-string literal. Otherwise the template's trackers, in the order taken, are the consecutive counter values from the start, one per block, component and element block/expression attribute: none skipped, none reused. |
| RstmlToRsxTemplate.ComponentFacts | crates/beet_rsx/parser/src/parse_rsx/rstml_to_rsx_template.rs:112-131 | The same for a component. It takes its tracker before its children, and its attributes are never visited. |
| RstmlToRsxTemplate.PlainElementFacts | crates/beet_rsx/parser/src/parse_rsx/rstml_to_rsx_template.rs:132-147 | The same for an element: children's trackers come before attributes' trackers. |
| RstmlToRsxTemplate.MapNodesFacts | crates/beet_rsx/parser/src/parse_rsx/rstml_to_rsx_template.rs:64-69 | The same for a node list, mapped in order. |
| RstmlToRsxTemplate.ElementShape | crates/beet_rsx/parser/src/parse_rsx/rstml_to_rsx_template.rs:100-147 | An element becomes a component exactly when its first character is uppercase; that component takes the current tracker, and a single child is its slot children. Otherwise it becomes an element, self-closing exactly when it has no close tag, with one child and attribute per input. |
| RstmlToRsxTemplate.LeavesTakeNoTracker | crates/beet_rsx/parser/src/parse_rsx/rstml_to_rsx_template.rs:76-99 | Doctype, comment, text and raw text map one to one and take no tracker. An empty tag is an element. |
| RstmlToRsxTemplate.RstmlToRsxTemplate.MapTokensFrom | crates/beet_rsx/parser/src/parse_rsx/rstml_to_rsx_template.rs:37-63 | The mapper's counter advances to where `MapTokens` leaves it. |
| InspectorOptions.InspectorOptions.constructor | crates/beet_ecs/src/inspector_options/inspector_options.rs:48 | `new` holds no options. |
| InspectorOptions.InspectorOptions.Get | crates/beet_ecs/src/inspector_options/inspector_options.rs:60-62 | Returns the stored options exactly when the target has some, and `None` for an absent target. |
| InspectorOptions.InspectorOptions.GetCloned | crates/beet_ecs/src/inspector_options/inspector_options.rs:63-70 | The same answer as `get`. |
| InspectorOptions.InspectorOptions.Insert | crates/beet_ecs/src/inspector_options/inspector_options.rs:50-52 | Afterwards `get` of the target returns the new value, replacing any old one. Every other target is unchanged. |
| InspectorOptions.InspectorOptions.InsertBoxed | crates/beet_ecs/src/inspector_options/inspector_options.rs:53-59 | The same update as `insert`. |
| InspectorOptions.InspectorOptions.Iter | crates/beet_ecs/src/inspector_options/inspector_options.rs:72-76 | Every stored target exactly once, with its options, and nothing else. Collected back, the listing is the map. |
| InspectorOptions.InspectorOptions.Clone | crates/beet_ecs/src/inspector_options/inspector_options.rs:34-46 | A new, separate object with exactly the same targets and options. |
| InspectorOptions.IterCollects | crates/beet_ecs/src/inspector_options/inspector_options.rs:34-46 | Any listing with `iter`'s guarantees collects back into the map it came from. |
| Receiver.Receiver.TryRecvOne | crates/beet_ecs/src/extensions/receiver.rs:10 | The oldest message when there is one; otherwise `Empty` while connected and `Disconnected` once not. |
| Receiver.Receiver.TryRecvAll | crates/beet_ecs/src/extensions/receiver.rs:7-16 | On a connected channel, every queued message in arrival order, with an empty queue giving an empty list. On a disconnected one, an error, dropping what was collected. The queue is empty afterwards either way. |
| Bert.Default | crates/beet_ml/src/models/bert.rs:27-36 | No model and no revision, embeddings normalised, exact GELU. |
| Bert.ResolveSpec | crates/beet_ml/src/models/bert.rs:47-56 | A given model or revision is used as is. A missing model is `sentence-transformers/all-MiniLM-L6-v2`. A missing revision is `main` with a chosen model, and `refs/pr/21` with the default model. |
| Bert.DefaultResolves | crates/beet_ml/src/models/bert.rs:27-56 | The default configuration fetches `refs/pr/21` of the MiniLM model. |
| Bert.HiddenActFor | crates/beet_ml/src/models/bert.rs:76-78 | `approximate_gelu` forces `GeluApproximate`; otherwise the downloaded activation is kept. |
| WasmHeap.Initial | play/wasm/main.js:21-25 | 128 undefined slots, then undefined, null, true and false: 132 slots, with the free-list head at 132. |
| WasmHeap.InitialValid | play/wasm/main.js:21-25 | The initial heap satisfies the free-list invariant, with an empty free list. |
| WasmHeap.AddFacts | play/wasm/main.js:27-36 | `getObject(addHeapObject(o)) == o`. The index is at least 132 and becomes live. With the free list exhausted the heap grows by exactly one slot; otherwise the head slot is reused. Other slots are unchanged, and the invariant is kept. |
| WasmHeap.DropReserved | play/wasm/main.js:38-39 | Dropping a reserved index changes nothing. |
| WasmHeap.DropThenAdd | play/wasm/main.js:29-30 | Dropping a live slot pushes it onto the free list, keeping the invariant, so the next add returns that same index (LIFO). |
| WasmHeap.TakeFacts | play/wasm/main.js:44-48 | `takeObject` returns the stored object and frees its slot, which becomes the free-list head. |
| WasmHeap.Heap.constructor | play/wasm/main.js:21-25 | The heap and its head start as `Initial`. |
| WasmHeap.Heap.AddHeapObject | play/wasm/main.js:27-34 | The heap and the returned index equal `Add` of the old heap. |
| WasmHeap.Heap.GetObject | play/wasm/main.js:36 | Equals `Get`: an index past the end reads as undefined. |
| WasmHeap.Heap.DropObject | play/wasm/main.js:38-42 | Equals `Drop` of the old heap. |
| WasmHeap.Heap.TakeObject | play/wasm/main.js:44-48 | Equals `Take` of the old heap. |
| Ecs.NatToDecimal | crates/beet_ecs/src/graph/beet_builder.rs:117 | Renders a count as a non-empty string of decimal digits. |
| Ecs.DecimalRoundTrip | crates/beet_ecs/src/graph/beet_builder.rs:117 | Reading the digits back gives the number, so distinct counts give distinct default names. |

## Left out

- The Bevy ECS itself is not modelled: observers, `Commands`, queries, `World::flush` and type registries. The world is explicit maps and sets, and the command queue a list that a flush applies in order.
- Query iteration order is a parameter (`order`, `nodes`, `fighters`) rather than Bevy's archetype order.
- `Entity` is a natural number, and new entities get consecutive ids from a counter. Bevy's generations and id reuse are not modelled.
- `RunResult`, `Run` and the selector actions are not part of this model. `On::trigger_result` is taken to trigger the result on the event's action.
- `any_child_running` and `first_child_result` are not part of this model. They are modelled from their names and their use in `q_table_selector`.
- `f32` is modelled as `real`, so NaN, infinities and rounding are not modelled. Health, depths, thresholds and the sensor's size and position are affected.
- `usize` counters (`current_step`, potion counts) are unbounded naturals, so overflow is not modelled.
- The learner of `QTableSelector` and the commented-out reward evaluation are not modelled. The learner is an opaque type parameter.
- Response.Dispatch replays a chain of triggers depth-first under a fuel bound; deliveries beyond the fuel are not replayed.
- Bevy's `Display` text for an entity is a parameter (`entityText`), because its format is Bevy's.
- Builder.World.AddChildTo covers what `build` needs: linking a fresh child to a parent. Reparenting a child that already has a parent, and Bevy's duplicate-child checks, are not modelled.
- `spawn_func` and `misc_funcs` are modelled by what they do in `new` and `with_type`: register a type, then spawn the bundle. Arbitrary closures are not modelled.
- `into_node` and `into_scene` are not modelled.
- `log::info!` output, the `LogPlugin` and `println!` calls are I/O and are not modelled. `Printed` stands for what reaches stdout.
- InsertWhileRunning.DeferredLifecycle does not state the test's `entities().len() == 3`: that number counts Bevy's own observer entities.
- From the Malenia example, only `try_heal_self` and `health_handler` are modelled. `attack_player`, `provide_random_score` and the I/O (the intro text, `await_key`) are not; they involve randomness and I/O. The `expect` panic on a missing origin is the `MissingOrigin` outcome, and `AppExit` events are counted.
- RsxNode: effects, `register_effects`, `walk`, the block's effect and the component's effect are not modelled. Locations are not modelled either.
- RsxNode.TryInsertSlots rebuilds the tree as values; the source's in-place mutation through `&mut` is not modelled.
- RstmlToRsxTemplate: the emitted token text (RON) is not modelled, only its tree shape.
- RstmlToRsxTemplate: a tracker is only its counter index. The hash of the block's tokens that the tracker builder also records is not modelled.
- RstmlToRsxTemplate.IsComponentTag tests ASCII `A`-`Z` only, not every Unicode uppercase letter that `char::is_uppercase` accepts.
- RstmlToRsxTemplate: literals arrive already rendered. Integer and float digits are given as digits, and byte strings as their lossily decoded text; UTF-8 decoding is not modelled.
- The rstml parse itself (`tokens_to_rstml`) and its ignored errors are not modelled, nor are spans or the `println!` of each node.
- InspectorOptions: type data is a value of a type parameter, so cloning type data gives an equal value. `as_any` downcasting, the `Debug` output and `ReflectInspectorOptions`/`FromType` are not modelled.
- InspectorOptions.InspectorOptions.Iter returns a sequence in an order the model does not fix, since `HashMap` iteration order is unspecified.
- Receiver: the other end of the channel and concurrency are not modelled. The queue and the disconnected flag are plain state.
- Bert: the download, tokenizer, weights, tensors and embeddings are I/O or numerics and are not modelled. `HiddenActFor` takes the downloaded activation as a parameter.
- WasmHeap: wasm memory, text encoding and the DOM imports of the bindings are not modelled. Neither is JavaScript's dynamic typing beyond the five kinds of value held in slots.
- WasmHeap.Add requires the free-list head to be a valid link. The JavaScript has no such check, and breaking it makes `heap_next` a non-index.
- WasmHeap.Drop does not forbid dropping a free slot twice, which corrupts the free list in the JavaScript as well. The lemmas assume a live slot.
