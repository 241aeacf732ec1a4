# Verified models of the Forge compiler's core

This project models the parts of the Forge compiler front end whose correctness is easiest to get
wrong, and proves what they promise. Tensor values are an abstract type and ops are arbitrary functions,
so every statement holds for all kernels; what is reasoned about is graphs, programs, queues,
containers, arithmetic and text. `dafny verify dfyconfig.toml` checks everything.

**Trace to graph** (`Trace`, `DataflowGraph`, `GraphInvariant`, `GraphMeaning`, `GraphNames`,
`GraphTurns`, `GraphRegister`, `Runs`, `GraphRuns`, `GenerateGraph`, `ParameterSharing`, `GraphExamples`).
`GraphGenerator` drains the same FIFO worklist as `generate_graph`, with the same maps and the same error
exits. A graph is given a meaning independent of any evaluation order: a valuation of the nodes solves the graph when
every node's value follows from what its incoming edges deliver. Each input node is loaded, by name, with
the value of the tensor it was made for. The main theorem says that the finished graph has a solution and
that every solution gives each node the value of the tensor it was made for, exactly when tensors that are
loaded from one parameter node have one value; `ParameterSharing` turns this into conditions on the
parameters' names. The ghost fields `roles` and `wired` record why a node exists and which edge fills which
port. Turns of the worklist are a deterministic transition relation (`GraphRuns`): the generator succeeds
exactly when the turns empty the queue, and the causes of an error are judged from the request alone
(`GraphNames`).

**Concurrent queue** (`ThreadSafeQueue`). Each critical section is split at its lock acquisition,
its wait, its update, its notification and its unlock, and any number of threads interleave, with
spurious wakeups. Safety holds for every `max_size`; freedom from lost wakeups holds exactly when the
queue is unbounded, because a pop notifies nobody.

**Code generation** (`CodeGeneration`, `GeneratedForward`, `TransposeLowering`). Reference counting
and the writer produce the lines of `forward`; the lines get a semantics in which reading a dropped
tensor is a fault of its own, and are compared with what the table of operations itself says of the
returned names. Operations are listed by ascending node id, operands before their uses.

**Adam** (`Adam`, `AdamInPlace`, `AdamBiasCorrection`). The traced ops are expressions whose state
travels through loopbacks; the PyTorch optimizer is a class that updates in place. They are compared
over whole runs.

**Containers** (`SmallVector`, `SimpleQueue`), **constant evaluation** (`ConstantEvaluation`),
**deduplication** (`UniqueOperations`, `UniqueRecords`), and **text and structure** (`Flatten`, `FlattenPaths`,
`EnvSplit`, `Signature`, `Requirements`) complete the project. `Wrappers` holds what all share, the option
and result types among it, `Decimal` the decimal rendering of node and position numbers, and `CppInt` the
comparison of C++ integers with sizes.

Where the code does less than one might expect, the exact condition is proved, and the members named in
parentheses show a case that falls outside it:

- Parameters are recorded by name, and an unnamed one is named after its first consumer. When a parameter,
  and whatever could share its name, can be given that name only, the graph is right exactly when these
  tensors have one value. An unnamed parameter can be merged with a named one of another subgraph
  (`MergeParameters`), and a parameter with a loopback input (`MergeLoopback`).
- The inputs that `generate_graph` returns line up with the registered input nodes exactly when every
  input that is also an output is a leaf (`KeepComputedInput`).
- A transpose is lowered to the right swap exactly when the permutation moves something
  (`IdentityLoweredToSwap`, `NegativeIdentityIsSwapped`). The PyTorch lowering refuses a swap exactly when
  some axis that stays in place is written as a negative number (`NegativeFixedAxisIsRefused`).
- Splitting an environment value can be undone for all values exactly when the delimiter does not
  overlap itself (`DoubledDelimiterBreaks`); one-character delimiters never do. With an empty delimiter
  the loop does not end (`EmptyDelimiterAlwaysFound`).
- Formatting a signature twice changes it again exactly when the last two pieces between top-level
  commas are blank (`FormattingTwiceCanDiffer`).
- `OpArgs.__eq__` is inclusion, not equality. Every call has a record of its own in the unique-op table
  exactly when no call is first used after one with a properly included argument list
  (`OrderDecidesRecords`). An operation is rejected exactly when the first earlier operation with the same
  function and operands, and with arguments included in its own, lacks one of its metadata names
  (`ExtraMetadataIsRejected`).
- The Adam corrected mean equals g exactly when all gradients do, for every g, exactly when the gradients
  are constant (`MixedGradientsCanAverage`); it equals the smallest or the largest of them only when
  they all do.
- Whether the requirement merge succeeds depends on the order of the lines exactly when some package has
  two versions and every such package is also listed without one (`OrderDecidesSuccess`); the result
  does not.
- A dictionary keeps the flattened names of its values distinct, whatever it holds, exactly when none of its
  keys is another one followed by an underscore and more (`SplitKeyCollides`); lists and tuples always do.

## Model

| member | source | states |
|---|---|---|
| `GraphMeaning.MeaningPreservedExactlyWhenCoherent` | forge/forge/compile.py:1200-1373 | with every input node loaded with its own tensor's value, the finished graph means what the trace means, for all ops, if and only if tensors loaded from one parameter node have one value |
| `GraphMeaning.MeaningPreserved` | forge/forge/compile.py:1159-1373 | for all ops, when such tensors agree the finished graph has a solution, every solution gives each node the value of the tensor it was made for, and output node k carries the k-th model output |
| `GraphMeaning.SolutionExists` | forge/forge/compile.py:1159-1373 | the finished graph has a solution for all ops and whatever its input nodes are loaded with |
| `GraphMeaning.LoadingExists` | forge/csrc/graph_lib/graph.hpp:344-361 | node names are distinct, so every choice of leaf values can be loaded |
| `GraphMeaning.SolutionIsFaithful` | forge/forge/compile.py:1159-1373 | a solution gives each node its tensor's value and output node k the k-th model output's |
| `GraphMeaning.NodeMeans` | forge/forge/compile.py:1200-1373 | in any solution of a coherent graph a node's value is its tensor's value, although an edge may load a parameter from another tensor's node |
| `GraphMeaning.OutputMeans` | forge/forge/compile.py:1159-1196 | node k is the output node of the k-th model output and carries its value |
| `GraphMeaning.OneEdgePerPort` | forge/forge/compile.py:1200-1373 | every port of every node has exactly one incoming edge, and no edge enters anywhere else |
| `GraphMeaning.EdgeStretches` | forge/csrc/graph_lib/python_bindings.cpp:479-503 | every edge into an op carries, in list order, the dimension and size of exactly the recorded broadcasts whose operand is its port; no other edge carries any |
| `GraphMeaning.EdgeComesFrom` | forge/forge/compile.py:1204-1373 | an edge comes from the node made for the tensor its port wants, from the nop between that tensor and an output, or from a parameter node of another subgraph that has the name looked up for it |
| `GraphMeaning.NopFeedsOutputsOnly` | forge/forge/compile.py:1244-1269 | the only consumers of a passthrough nop are model output nodes |
| `GraphMeaning.OneNodePerTensor` | forge/forge/compile.py:1202-1207 | an op, constant or input tensor has a node of its own if and only if some output depends on it, and never two |
| `GraphMeaning.SlotFor` | forge/forge/compile.py:1200-1373 | every tensor that outputs depend on is wanted at some port |
| `ParameterSharing.NamedParametersPreserveMeaningExactly` | forge/forge/compile.py:1213-1236 | in particular, when all parameters in use are named and no loopback input takes such a name: if and only if parameters of equal names have equal values |
| `ParameterSharing.SettledNamesPreserveMeaningExactly` | forge/forge/compile.py:1213-1236 | when a parameter, and whatever could share its name, can be given that name only, named or not, looped back or not, the graph means what the trace means, for all ops, if and only if these tensors have one value |
| `ParameterSharing.AgreeingNamesPreserveMeaning` | forge/forge/compile.py:1213-1236 | judged from any request: it does so whenever a parameter has one value with every parameter and loopback input that could be given its name |
| `ParameterSharing.ParameterEdge` | forge/forge/compile.py:1220-1236 | a parameter node's name is one that both the tensor it was made for and any tensor loaded from it could be given |
| `ParameterSharing.OneNameOneValue` | forge/forge/compile.py:1220-1229 | a parameter and another leaf that can only be given the same name are loaded from one node, so the graph is right only if they are equal |
| `GraphExamples.MergeParameters` | forge/forge/compile.py:1213-1229 | a request with an unnamed parameter that is translated without error into a graph that does not mean the trace |
| `GraphExamples.CollidingParametersShareNode` | forge/forge/compile.py:1216-1229 | every graph built for that request is right if and only if the two parameters are equal |
| `GraphExamples.LoopbackSharesNode` | forge/forge/compile.py:1302-1326 | every graph built for a request with a parameter and a loopback input of its name in another subgraph is right if and only if the two are equal |
| `GraphExamples.LoopbackIsTranslatable` | forge/forge/compile.py:1200-1327 | the worklist empties its queue on that request, turn by turn, although the request allows one name for two nodes |
| `GraphExamples.MergeLoopback` | forge/forge/compile.py:1213-1327 | that request is translated without error into a graph that does not mean the trace |
| `GraphExamples.KeepComputedInput` | forge/forge/compile.py:1393-1401 | a request that is translated without error and keeps more inputs than it registers input nodes |
| `Trace.SelectStretches` | forge/csrc/graph_lib/python_bindings.cpp:479-503 | the loop keeps, in list order, exactly the broadcasts whose first entry is the port |
| `Trace.OpMeans` | forge/csrc/graph_lib/python_bindings.cpp:479-503 | in the meaning of the trace an op is applied, in order, to its operands, each stretched by exactly the broadcasts recorded for it |
| `GraphInvariant.PopKeeps` | forge/forge/compile.py:1202 | popping an entry leaves exactly its port open, and its tensor is one an output depends on |
| `GraphInvariant.PushKeeps` | forge/forge/compile.py:1372-1373 | queueing an entry closes exactly the port it asks for |
| `GraphInvariant.AddEdgeKeeps` | forge/csrc/graph_lib/python_bindings.cpp:479-503 | an edge that supplies the tensor an open port wants keeps the invariant and closes that port only |
| `GraphInvariant.AddNodeKeeps` | forge/csrc/graph_lib/graph.hpp:344-361 | a new node under a free name keeps the invariant and opens exactly its own ports |
| `GraphNames.EntryUse` | forge/forge/compile.py:1202 | the consumer of a queued entry uses its tensor at that port, and in the entry's subgraph |
| `GraphNames.TensorNamed` | forge/forge/compile.py:1213-1334 | what the node of a tensor is called: a given parameter name or one made from a consumer, the name the caller gave the input at its first position or one made from a consumer and its port, a constant's consumer and port, the op's own name |
| `GraphNames.OutputNamed` | forge/forge/compile.py:1159-1188 | an output node is called after its module and its source op, or after its module and the number of different passed-through outputs before it |
| `GraphNames.NopNamed` | forge/forge/compile.py:1254-1262 | a passthrough nop is called after the id of an output node of its input |
| `GraphNames.RefusalIsClash` | forge/csrc/graph_lib/graph.hpp:351-356 | a name that the graph refuses is one that the request allows for two different nodes |
| `GraphNames.WellPosedHasNoError` | forge/forge/compile.py:1159-1386 | no error can have its cause in a request without name clashes, parameter reuse within a subgraph, missing input names, untraced outputs or unused targets |
| `GraphTurns.PassthroughMeetsOutputFirst` | forge/forge/compile.py:1244-1269 | because outputs are queued first, a passed-through input is first popped for an output, which makes wiring the nop to port 0 right |
| `GraphTurns.FifoStep` | forge/forge/compile.py:1200-1202 | taking entries from the front and adding them at the back keeps all output entries in front |
| `GraphTurns.EdgeHandles` | forge/forge/compile.py:1204-1207 | an edge from a node that supplies the popped tensor settles the entry |
| `GraphTurns.SharedParameterHandles` | forge/forge/compile.py:1220-1229 | an edge from the node recorded under the parameter's name, in another subgraph, settles the entry |
| `GraphTurns.ParameterHandles` | forge/forge/compile.py:1213-1236 | the first use of a parameter name settles the entry |
| `GraphTurns.PlainHandles` | forge/forge/compile.py:1271-1327 | a target, constant, activation or loopback input node settles the entry |
| `GraphTurns.BypassHandles` | forge/forge/compile.py:1244-1269 | an input node, a nop and their two edges settle an output's entry for a passed-through input |
| `GraphTurns.OpHandles` | forge/forge/compile.py:1356-1373 | an op node settles the entry and queues one entry for each of its ports |
| `GraphTurns.OperandsQueued` | forge/forge/compile.py:1372-1373 | queueing the first i operands leaves exactly the ports from i on open |
| `GraphTurns.TurnHandles` | forge/forge/compile.py:1200-1373 | every branch of the loop body settles the popped entry and leaves no port open |
| `GraphTurns.TurnNames` | forge/forge/compile.py:1200-1373 | every node is given a name that the request allows for it, every parameter node is recorded under its name, and an input's node is of the kind that its being an output, a target, a constant or looped back calls for, in that order |
| `GraphTurns.RefusedIsExplained` | forge/forge/compile.py:1200-1373 | whenever a turn fails, the request itself contains the cause |
| `GraphTurns.TurnKeepsLoop` | forge/forge/compile.py:1200-1373 | one turn keeps the loop invariant and either visits a new tensor or shortens the queue |
| `GraphTurns.OutputKeeps` | forge/forge/compile.py:1159-1196 | creating an output node and queueing its tensor keeps the invariant |
| `GraphTurns.OutputPlacedNext` | forge/forge/compile.py:1159-1196 | the next output takes the next id, the next place in the queue and the name made from its module and source |
| `GraphRegister.RegisterKeeps` | forge/forge/compile.py:1267-1324 | a newly visited tensor without a source enters the map for the kind of its node: activations the inputs, targets and constants the targets, loopback parameters the loopbacks; all others enter none |
| `GraphRegister.VisitedKind` | forge/forge/compile.py:1244-1326 | on a finished graph the node of an input is of the kind that its being an output, a target, a constant or looped back calls for, in that order |
| `GraphRegister.TargetNodesExactly` | forge/forge/compile.py:1386 | a requested target has a target node if and only if it is a leaf that some output depends on and that is no output itself |
| `GraphRegister.LastAreRegistered` | forge/forge/compile.py:1195 | each output is registered with the last output node made for its tensor |
| `GraphRegister.OutputNodesDistinct` | forge/forge/compile.py:1381-1385 | every output is registered with its own node if and only if no tensor is output twice |
| `GraphRegister.InputsLineUp` | forge/forge/compile.py:1376-1401 | the kept inputs match the registered input nodes one for one if and only if every input that is also an output is a leaf, and otherwise there are more of them |
| `GraphRegister.KeptMembers` | forge/forge/compile.py:1393-1401 | an input is kept if and only if it has an input or output node and is not looped back |
| `GraphRegister.KeptArePicked` | forge/forge/compile.py:1393-1401 | the kept inputs stand at exactly the positions, in ascending order, of the inputs to be kept |
| `GraphRegister.NodesArePicked` | forge/forge/compile.py:1376-1385 | the registered nodes are those of exactly the tensors that have one, in the order of their positions |
| `GraphRegister.InputsAreRegistered` | forge/forge/compile.py:1376-1401 | on a finished graph the registered input nodes are the activation nodes of the requested inputs, in order, and the kept inputs are those and the outputs among them, without the looped-back ones |
| `GraphRegister.RegistrationIsOk` | forge/forge/compile.py:1375-1401 | what is registered on a finished graph, in terms of the request |
| `GraphRuns.TranslationIsUnique` | forge/forge/compile.py:1159-1373 | turns are deterministic, so a request has at most one translation |
| `GraphRuns.TranslationIsFinished` | forge/forge/compile.py:1159-1373 | every translation is a finished graph whose nodes have names that the request allows |
| `GraphRuns.FailureIsNotTranslatable` | forge/forge/compile.py:1200-1373 | when the worklist comes to a turn that is refused, no run of it empties the queue |
| `GraphRuns.FailureIsExplained` | forge/forge/compile.py:1200-1373 | wherever the worklist comes to a refused turn, the request itself contains the cause |
| `GraphRuns.NotPlacedIsExplained` | forge/forge/compile.py:1159-1196 | an output that is refused a node has no source and is no input, or its name is also that of another node the request allows |
| `GenerateGraph.GraphGenerator.CreateNode` | forge/csrc/graph_lib/graph.hpp:344-361 | a node gets the next position, and with it the next id counted from `firstId`, if and only if its name is free; otherwise nothing changes |
| `GenerateGraph.GraphGenerator.CreateDataEdge` | forge/csrc/graph_lib/python_bindings.cpp:479-503 | the edge carries, in list order, the dimension and size of exactly the broadcasts whose first entry is its own port |
| `GenerateGraph.GraphGenerator.CreateInput` | forge/forge/compile.py:1271-1283 | a new input node is connected to the consumer and recorded as visited if and only if its name is free |
| `GenerateGraph.GraphGenerator.VisitParameter` | forge/forge/compile.py:1213-1236 | a parameter is loaded from a new node or from the recorded node of its name; it is refused when recorded in the same subgraph or when another node has the name |
| `GenerateGraph.GraphGenerator.CreateBypass` | forge/forge/compile.py:1244-1269 | input, nop and both edges are added if and only if both names are free and differ; the nop is named after the id of the output node |
| `GenerateGraph.GraphGenerator.VisitPlain` | forge/forge/compile.py:1238-1269 | a tensor without a source op becomes a passed-through input or a graph input under the name the code chooses, or is refused for want of a name |
| `GenerateGraph.GraphGenerator.VisitInput` | forge/forge/compile.py:1271-1327 | the input kind is decided in the order target, constant, activation, loopback parameter, and registered in the matching map |
| `GenerateGraph.GraphGenerator.VisitLiteral` | forge/forge/compile.py:1329-1341 | a constant op becomes a constant input node holding its value |
| `GenerateGraph.GraphGenerator.VisitProduced` | forge/forge/compile.py:1356-1373 | an op node, its outgoing edge and one queue entry per operand are added |
| `GenerateGraph.GraphGenerator.PushOperands` | forge/forge/compile.py:1372-1373 | operand i is queued for port i, in order, with the op's broadcasts |
| `GenerateGraph.GraphGenerator.Visit` | forge/forge/compile.py:1204-1373 | handling an entry changes the graph as the branch for its tensor says, or is refused for the reason the branch gives |
| `GenerateGraph.GraphGenerator.PopEntry` | forge/forge/compile.py:1202 | takes the oldest entry off the queue and changes nothing else |
| `GenerateGraph.GraphGenerator.HandleFirst` | forge/forge/compile.py:1202-1373 | the oldest entry is handled as its branch says, or refused for the reason the branch gives |
| `GenerateGraph.GraphGenerator.Step` | forge/forge/compile.py:1200-1373 | an iteration of the loop is a turn, or the turn is refused for the error returned |
| `GenerateGraph.GraphGenerator.Advance` | forge/forge/compile.py:1200-1373 | an iteration keeps whatever turns preserve, and either visits a new tensor or shortens the queue |
| `GenerateGraph.GraphGenerator.Drain` | forge/forge/compile.py:1200-1373 | the loop ends on every acyclic trace with every port wired, or in a state whose next turn is refused; whatever turns preserve holds at the end |
| `GenerateGraph.GraphGenerator.Work` | forge/forge/compile.py:1200-1373 | without an error the loop has followed the turns from the placed outputs to an empty queue; with one, no such run exists and the cause is in the request |
| `GenerateGraph.GraphGenerator.NameOutput` | forge/forge/compile.py:1159-1188 | an output is named after its module and source op, or numbered among the passed-through ones; without a source and not an input it is an error |
| `GenerateGraph.GraphGenerator.CreateOutput` | forge/forge/compile.py:1159-1196 | an output node is created and its tensor queued if and only if the tensor has a source or is an input, and the name is free |
| `GenerateGraph.GraphGenerator.PlaceOutput` | forge/forge/compile.py:1159-1196 | the next output node has the next id and the next place in the queue; otherwise the request cannot be translated |
| `GenerateGraph.GraphGenerator.CreateOutputs` | forge/forge/compile.py:1159-1196 | all outputs are queued before anything else, as the loop needs |
| `GenerateGraph.GraphGenerator.RegisterNodes` | forge/forge/compile.py:1376-1385 | lists the nodes of those tensors that have one, in the order of the tensors |
| `GenerateGraph.GraphGenerator.KeepInputs` | forge/forge/compile.py:1393-1401 | keeps, in order, the inputs that have an input or output node and are not looped back |
| `GenerateGraph.GraphGenerator.Register` | forge/forge/compile.py:1375-1401 | fails if and only if a target has no target node; outputs are registered with the nodes last made for them |
| `GenerateGraph.GraphGenerator.RegisterFinished` | forge/forge/compile.py:1375-1401 | on a finished graph it succeeds if and only if every target is a leaf of the graph, and inputs, targets and outputs are registered as the request determines |
| `GenerateGraph.GraphGenerator.Generate` | forge/forge/compile.py:1135-1425 | succeeds if and only if the request can be translated, which is so for every well-posed request; on success the graph is the translation, finished and registered as the request determines; every error has its cause in the request |
| `ThreadSafeQueue.StepSafe` | utils/thread_safe_queue.hpp:49-110 | each step keeps mutual exclusion, the bound, and the queue equal to a sequential replay |
| `ThreadSafeQueue.RunSafe` | utils/thread_safe_queue.hpp:49-110 | the same at every point of every interleaving |
| `ThreadSafeQueue.ReachableSafe` | utils/thread_safe_queue.hpp:49-110 | in every reachable state at most one thread is between lock and unlock, the bound holds, the history is one of a sequential deque, and values pushed are the values popped, cleared or still queued |
| `ThreadSafeQueue.CallDoes` | utils/thread_safe_queue.hpp:49-110 | a push_blocking call puts its value at the back when there is room and records it, a push_front_blocking call at the front, a pop takes and records the front value, clear empties the queue |
| `ThreadSafeQueue.CallWaits` | utils/thread_safe_queue.hpp:51-63 | a push sleeps only when the size has reached a nonzero bound, read as an unsigned 64-bit number, and a pop only when the queue is empty; clear never does |
| `ThreadSafeQueue.FirstInFirstOut` | utils/thread_safe_queue.hpp:49-104 | in every interleaving without push_front_blocking and clear, the values popped followed by the values queued are the values of the push_blocking calls, in the order of the lock |
| `ThreadSafeQueue.Conservation` | utils/thread_safe_queue.hpp:65-109 | along a history no value is lost, duplicated or invented, as multisets |
| `ThreadSafeQueue.EventConserves` | utils/thread_safe_queue.hpp:65-109 | each queue operation adds or removes exactly its value |
| `ThreadSafeQueue.StepAttended` | utils/thread_safe_queue.hpp:49-110 | with no bound, while a consumer sleeps the queue never outgrows the threads that owe a wakeup or are awake to pop |
| `ThreadSafeQueue.WakeAttended` | utils/thread_safe_queue.hpp:66 | a notification hands the obligation on to the consumer it wakes |
| `ThreadSafeQueue.RunAttended` | utils/thread_safe_queue.hpp:49-110 | the same at every point of every interleaving |
| `ThreadSafeQueue.NoLostWakeup` | utils/thread_safe_queue.hpp:49-110 | with no bound, if the lock is free and a consumer sleeps then there are at least as many woken consumers as queued values, hence one if the queue is not empty |
| `ThreadSafeQueue.WokenConsumerPops` | utils/thread_safe_queue.hpp:89-104 | such a consumer can take the lock and pop the front value |
| `ThreadSafeQueue.BoundedGetsStuck` | utils/thread_safe_queue.hpp:89-104 | for every nonzero max_size there is an interleaving in which a producer sleeps although there is room and nobody is woken |
| `ThreadSafeQueue.UnboundedNotStuck` | utils/thread_safe_queue.hpp:49-110 | with no bound nobody sleeps who could proceed unless somebody able to proceed has been woken |
| `ThreadSafeQueue.NeverStuckExactlyWhenUnbounded` | utils/thread_safe_queue.hpp:49-104 | no interleaving gets stuck if and only if max_size is zero |
| `CodeGeneration.CountConsumers` | forge/forge/tvm_to_python.py:2508-2518 | each name is counted once per read, plus one if returned, and the outputs set holds the produced names |
| `CodeGeneration.CountReturned` | forge/forge/tvm_to_python.py:2511-2512 | a returned name counts once, however often it is returned |
| `CodeGeneration.CountReads` | forge/forge/tvm_to_python.py:2514-2518 | counting an operation's reads adds exactly their multiplicities |
| `CodeGeneration.OutputsExactly` | forge/forge/tvm_to_python.py:2513 | the outputs set holds exactly the names that operations produce |
| `CodeGeneration.ReadsExactly` | forge/forge/tvm_to_python.py:2514-2518 | the counted reads from an operation on are of exactly the names that it or a later one reads |
| `CodeGeneration.CountDown` | forge/forge/tvm_to_python.py:2520-2524 | a produced name that is read has a positive count, and passing the read takes off one |
| `CodeGeneration.PassRead` | forge/forge/tvm_to_python.py:2521-2526 | a produced name is counted down, and is dropped if its count reaches zero; other names are left alone |
| `CodeGeneration.DyingNext` | forge/forge/tvm_to_python.py:2525-2526 | an operand's count reaches zero exactly when nothing reads it later and it is not returned |
| `CodeGeneration.DeleteAt` | forge/forge/tvm_to_python.py:2519-2526 | the operation is given exactly the names that die at it, in operand order |
| `CodeGeneration.DeleteUnneededOutputs` | forge/forge/tvm_to_python.py:2507-2526 | every operation is given exactly the names that die at it |
| `CodeGeneration.DeletionsListed` | forge/forge/tvm_to_python.py:2519-2526 | these names stand at exactly the operand places, in ascending order, where an intermediate that is not returned is read for the last time |
| `GeneratedForward.ForgeWriter.GetOpInputNames` | forge/forge/python_codegen.py:223-233 | operand i is read by get_parameter if it is a parameter, otherwise by get_constant if it is a constant, otherwise as a variable |
| `GeneratedForward.ForgeWriter.WriteOperation` | forge/forge/python_codegen.py:241-280 | the call line is followed by the lines that drop the operation's dead inputs, when dropping is enabled |
| `GeneratedForward.ForgeWriter.WriteForward` | forge/forge/python_codegen.py:235-290 | header, one block per operation in order, and the return line |
| `GeneratedForward.EmitForward` | forge/forge/tvm_to_python.py:2528-2534 | counting then writing emits exactly the body whose meaning is studied |
| `GeneratedForward.ForwardReturnsTable` | forge/forge/python_codegen.py:235-290 | called with its activations by position, the emitted body, with drops or without, returns if and only if every name it reads is a parameter, a constant, an activation or some operation's output, and then returns, in order, the values that the table of operations gives the returned names |
| `GeneratedForward.PlainFollows` | forge/forge/python_codegen.py:241-288 | from any operation on, an environment that holds what the table says so far leads to what the table says at the end |
| `GeneratedForward.DroppingPreservesMeaning` | forge/forge/python_codegen.py:278-280 | whatever the ops mean, the program with drops returns what the program without returns, or stops with the same fault |
| `GeneratedForward.DroppedIsNeverRead` | forge/forge/python_codegen.py:278-280 | the program with drops never reads a dropped tensor, and it returns whenever every name it reads is an activation or some operation's output |
| `GeneratedForward.PlainRun` | forge/forge/python_codegen.py:241-288 | without drops no read of a dropped tensor occurs, and with all names defined every operation finds its operands |
| `GeneratedForward.SimulateFrom` | forge/forge/python_codegen.py:241-288 | from any operation on, environments that agree on the names still needed lead to the same result |
| `GeneratedForward.DroppedAfterLastUse` | forge/forge/tvm_to_python.py:2519-2526 | an operation drops a name, once, exactly when the name is an intermediate it reads that is not returned and not read afterwards |
| `GeneratedForward.DroppedExactlyOnce` | forge/forge/tvm_to_python.py:2507-2526 | over the whole body each intermediate that is read and not returned is dropped once, and nothing else is |
| `GeneratedForward.RunFrees` | forge/forge/python_codegen.py:279-280 | a run of drop lines marks exactly the named tensors |
| `GeneratedForward.ForgeNamesDistinct` | forge/forge/tvm_to_python.py:2158 | operations with different node ids get different result names, whatever their kinds |
| `GeneratedForward.ForgeNamed` | forge/forge/tvm_to_python.py:2158 | a result is called after the kind of its operation, an underscore and the decimal numeral of its node id |
| `TransposeLowering.NormalizeAxes` | forge/forge/tvm_to_python.py:1101-1105 | every negative axis is counted from the end |
| `TransposeLowering.TransposedAxes` | forge/forge/tvm_to_python.py:1107-1110 | the axes found at the moved positions, last first |
| `TransposeLowering.PopulateTransposeArgs` | forge/forge/tvm_to_python.py:1094-1124 | succeeds if and only if two axes are moved or the axes are the identity on two, and then emits the swap whose effect is studied; otherwise the error tells the number of axes found |
| `TransposeLowering.PopulateTorchTransposeArgs` | forge/forge/tvm_to_python.py:233-263 | the two positions where the axes as written differ from their index; anything but two is an error |
| `TransposeLowering.ExchangeIsLowered` | forge/forge/tvm_to_python.py:1094-1124 | axes that exchange positions a and b, a before b, are lowered to a minus the rank and b minus the rank, at any rank and with negative axes |
| `TransposeLowering.IdentityIsLowered` | forge/forge/tvm_to_python.py:1112-1122 | the identity on two axes is lowered to the dimensions -2 and -1 |
| `TransposeLowering.TwoMovedExchange` | forge/forge/tvm_to_python.py:1107-1116 | a permutation that moves two positions exchanges them and fixes the rest |
| `TransposeLowering.NotOneMoved` | forge/forge/tvm_to_python.py:1107-1116 | no permutation moves exactly one position |
| `TransposeLowering.ForgeSwapIsPermutation` | forge/forge/tvm_to_python.py:1094-1124 | for every permutation moving exactly two axes, at any rank and with negative axes, the emitted swap permutes every index as the axes do |
| `TransposeLowering.ForgeSwapRightExactlyWhenMoving` | forge/forge/tvm_to_python.py:1107-1122 | whenever a swap is emitted for a permutation it is right if and only if the permutation is not the identity |
| `TransposeLowering.IdentityLoweredToSwap` | forge/forge/tvm_to_python.py:1112-1114 | the axes [0, 1] are lowered to a swap that is not the identity |
| `TransposeLowering.TorchAgreesWithForge` | forge/forge/tvm_to_python.py:233-263 | the PyTorch lowering accepts such a permutation if and only if no fixed axis is written negatively, and then names the same two dimensions |
| `TransposeLowering.TorchSwapRightExactlyWhenMoving` | forge/forge/tvm_to_python.py:243-261 | what the PyTorch lowering emits for a permutation is right if and only if the permutation moves something |
| `TransposeLowering.NegativeFixedAxisIsRefused` | forge/forge/tvm_to_python.py:244-250 | the axes [1, 0, -1] are lowered by one and refused by the other, which counts three moved axes |
| `TransposeLowering.NegativeIdentityIsSwapped` | forge/forge/tvm_to_python.py:243-261 | the axes [-2, -1] move nothing and are lowered to a swap |
| `AdamInPlace.ParameterState.UpdateMoments` | forge/forge/torch_optimizers.py:50-54 | the in-place operations leave both exponential moving averages |
| `AdamInPlace.ParameterState.Update` | forge/forge/torch_optimizers.py:38-65 | one parameter and its moments are updated as the specification says, for both kinds of weight decay |
| `AdamInPlace.UpdateInFull` | forge/forge/torch_optimizers.py:38-65 | the update in full: the two moving averages, the L2 term inside the gradient or the decay before the step, and the parameter less the rate times the mean over the root plus epsilon |
| `AdamInPlace.AdamNoBiasCorrection.CollectState` | forge/forge/torch_optimizers.py:112-140 | missing state is created as zero moments and the step counted, for exactly the parameters with a gradient |
| `AdamInPlace.AdamNoBiasCorrection.Step` | forge/forge/torch_optimizers.py:91-157 | every parameter with a gradient takes one update and one step count; the others keep both |
| `AdamInPlace.DecoupledDecay` | forge/forge/torch_optimizers.py:45-46 | shrinking the parameter before the step is the same as adding the decay to the step |
| `AdamInPlace.StepsAgree` | forge/forge/optimizers.py:326-418 | one step of the trace without bias correction is defined and equals one in-place update |
| `AdamInPlace.RunsAgree` | forge/forge/optimizers.py:326-418 | over a run of any length and any gradients and rates, both forms keep the same mean, variance and parameter |
| `AdamInPlace.Train` | forge/forge/torch_optimizers.py:90-157 | driving the optimizer object over a run ends where the trace ends |
| `AdamBiasCorrection.CorrectedStep` | forge/forge/optimizers.py:353-418 | with bias correction a step is defined: both powers are below one and the denominator is positive |
| `AdamBiasCorrection.MomentsInFull` | forge/forge/optimizers.py:328-368 | the moving averages and the powers that a corrected step leaves, in full |
| `AdamBiasCorrection.ParameterInFull` | forge/forge/optimizers.py:370-418 | the corrected update in full: the mean over one minus the first power, over the root divided by the root of one minus the second power, plus epsilon |
| `AdamBiasCorrection.TraceIsCorrectedRun` | forge/forge/optimizers.py:326-418 | the trace is defined at every step of every run and equals the corrected update |
| `AdamBiasCorrection.PowersAfterRun` | forge/forge/optimizers.py:354-368 | after k steps the loopback state holds the k-th powers of beta1 and beta2 |
| `AdamBiasCorrection.MeanIsMovingAverage` | forge/forge/optimizers.py:337-343 | the mean is the exponential moving average of the effective gradients seen |
| `AdamBiasCorrection.AverageAbove` | forge/forge/optimizers.py:337-361 | the moving average of gradients bounded below has at least the bound times the total weight, with equality if and only if all equal the bound |
| `AdamBiasCorrection.CorrectedMeanBounded` | forge/forge/optimizers.py:383-385 | the corrected mean lies between any lower and upper bound of the effective gradients; for positive beta1 it touches one if and only if all gradients equal it |
| `AdamBiasCorrection.EqualityCharacterizesConstantGradients` | forge/forge/optimizers.py:383-385 | "the corrected mean equals g if and only if all gradients do" holds for every g if and only if the gradients are constant |
| `AdamBiasCorrection.WithoutMemoryMeanIsLast` | forge/forge/optimizers.py:341-343 | for beta1 zero the corrected mean is the last effective gradient |
| `AdamBiasCorrection.MixedGradientsCanAverage` | forge/forge/optimizers.py:383-385 | two unequal gradients can have a corrected mean strictly between them, so equality with a value says nothing there |
| `AdamBiasCorrection.FirstStepMatchesTorch` | forge/forge/optimizers.py:420-450 | on the first step the trace computes the host-side reference in all four configurations |
| `SmallVector.SmallVector.Get` | utils/small_vector.hpp:61-71 | indexing reads the element of the contents, in either representation |
| `SmallVector.SmallVector.Set` | utils/small_vector.hpp:67-71 | writing through an index replaces exactly that element |
| `SmallVector.SmallVector.FromArrToVec` | utils/small_vector.hpp:206-211 | the heap vector holds the inline elements |
| `SmallVector.SmallVector.FromVecToArr` | utils/small_vector.hpp:213-219 | the inline bytes hold the first SizeElems elements of the heap vector |
| `SmallVector.SmallVector.PushBack` | utils/small_vector.hpp:83-99 | appends, switching to the heap exactly on outgrowing the inline capacity |
| `SmallVector.SmallVector.PopBack` | utils/small_vector.hpp:107-122 | removes the last element, switching back when the rest fits |
| `SmallVector.SmallVector.ShrinkByOne` | utils/small_vector.hpp:176-186 | the size goes down by one and the representation follows |
| `SmallVector.SmallVector.SwapWithPrevious` | utils/small_vector.hpp:127 | exchanges two neighbouring elements and nothing else |
| `SmallVector.SmallVector.Insert` | utils/small_vector.hpp:124-128 | the element ends up at the position, or at the end if that lies beyond; the others keep their order |
| `SmallVector.InsertedInFull` | utils/small_vector.hpp:124-128 | after an insertion the element is at the position, or at the end if that lies beyond; elements before it keep their index and those from it on move up by one |
| `SmallVector.SmallVector.CopyElement` | utils/small_vector.hpp:171-174 | one element is overwritten by another and nothing else changes |
| `SmallVector.SmallVector.MoveDown` | utils/small_vector.hpp:171-174 | the loop moves every element after the position down by one, leaving the last one twice |
| `SmallVector.SmallVector.Erase` | utils/small_vector.hpp:167-189 | removes exactly the element at the position |
| `SmallVector.SmallVector.Clear` | utils/small_vector.hpp:137-145 | the vector is empty and inline |
| `SmallVector.SmallVector.Assign` | utils/small_vector.hpp:47-59 | the contents become the other vector's, which is left alone; a vector whose elements are inline may be assigned to itself |
| `SmallVector.SwappedDown` | utils/small_vector.hpp:127 | one swap moves the inserted element down by one place |
| `SmallVector.ShiftedDown` | utils/small_vector.hpp:171-174 | one assignment moves the hole up by one place |
| `SmallVector.Execute` | utils/small_vector.hpp:47-189 | each method does to the contents what the command does to a plain sequence |
| `SmallVector.ExecuteAll` | utils/small_vector.hpp:47-189 | over every run of commands the contents are those of a plain sequence, and the heap is in use exactly when the size exceeds SizeElems |
| `SimpleQueue.SimpleQueue.PushBlocking` | utils/simple_queue.hpp:56-60 | appends, or fails unchanged when the size equals max_size read as an unsigned 64-bit number |
| `SimpleQueue.SimpleQueue.PopBlockingByRef` | utils/simple_queue.hpp:62-76 | takes the front, moves the read pointer down if positive and resynchronizes the shadow pointer, or fails unchanged when empty |
| `SimpleQueue.SimpleQueue.Clear` | utils/simple_queue.hpp:78-91 | empties the queue and resets the shadow pointer alone or both pointers |
| `SimpleQueue.SimpleQueue.SetPtr` | utils/simple_queue.hpp:93-102 | sets the shadow pointer alone or both pointers |
| `SimpleQueue.SimpleQueue.Read` | utils/simple_queue.hpp:129-138 | returns the element at pointer plus offset, or fails if the pointer is negative or the sum is out of bounds |
| `SimpleQueue.StreamAfter` | utils/simple_queue.hpp:56-66 | a push leaves the stream of all values as it is and a pop consumes its first element |
| `SimpleQueue.RunFollowsStream` | utils/simple_queue.hpp:56-76 | after k pops the queue is the stream from k on, the read pointer has come down by k or to zero, and the shadow pointer follows it |
| `SimpleQueue.PositionStaysPut` | utils/simple_queue.hpp:62-138 | a read looks at the same position of the stream if and only if there were at most as many pops as the starting read pointer |
| `SimpleQueue.ReadStaysPut` | utils/simple_queue.hpp:62-138 | for that many pops, a read that was in bounds stays in bounds and returns the same element |
| `SimpleQueue.Run` | utils/simple_queue.hpp:56-76 | over a run of pushes and pops the size never passes max_size, and the offset stays |
| `SimpleQueue.Execute` | utils/simple_queue.hpp:56-76 | running the operations on the object does what the specification run does, and stops at the first failed assertion |
| `ConstantEvaluation.Interpret` | forge/forge/tensor.py:948-974 | over any recorded topological order no lookup is missing and the result is the denotation of the last node that leaves an output |
| `ConstantEvaluation.VisitNode` | forge/forge/tensor.py:953-971 | each node's branch tabulates its denotation |
| `ConstantEvaluation.InputsAfterTms` | forge/forge/tensor.py:958-965 | operand i enters the op after its own view chain, first to last, or as it is without chains; it fails exactly on an operand without a value or a chain |
| `ConstantEvaluation.EvalTms` | forge/forge/tensor.py:962-964 | the values between the view operations start with the operand, each is the next operation applied to the one before, and the last is returned |
| `ConstantEvaluation.NodeDenotes` | forge/forge/tensor.py:953-971 | an input denotes its value, an output its source's, and an op is applied in order to what its operands denote after their view chains, first to last |
| `ConstantEvaluation.LastOutputExactly` | forge/forge/tensor.py:953-974 | the node that leaves the output is the last one of the order that is not an input |
| `ConstantEvaluation.DenoteIgnoresRank` | forge/forge/tensor.py:938-974 | a node's denotation does not depend on how acyclicity is witnessed |
| `ConstantEvaluation.SinkIsLast` | forge/forge/tensor.py:953-974 | a single output that every node leads to ends every topological order |
| `ConstantEvaluation.OrderIrrelevant` | forge/forge/tensor.py:953-974 | with such an output the result is the same for every topological order, every numbering, and all tables that agree on the input nodes |
| `ConstantEvaluation.GetConstantInputs` | forge/forge/tensor.py:916-935 | loads every input of the subgraph, from the constants if it is one and else from the device values, whenever all can be loaded |
| `ConstantEvaluation.ConstEvalTensor` | forge/forge/tensor.py:938-974 | without a subgraph the input itself, otherwise its denotation |
| `ConstantEvaluation.PostConstEval` | forge/forge/tensor.py:1034-1047 | loading and evaluating one recorded name never fails and yields its denotation |
| `ConstantEvaluation.GetPostConstEvalTensors` | forge/forge/tensor.py:1024-1049 | every listed name ends with the value its subgraph denotes, or its own, and no lookup fails on recorded subgraphs |
| `UniqueOperations.AppendMetadata` | forge/forge/tvm_unique_op_generation.py:262-264 | each value is appended to the list of its name unless it is there; it fails if and only if some name has no list, with the values before it appended |
| `UniqueOperations.Update` | forge/forge/tvm_unique_op_generation.py:251-269 | the first included argument list takes the metadata, otherwise a new one is appended; on failure it has taken part of the metadata |
| `UniqueOperations.AddOperandsArgs` | forge/forge/tvm_unique_op_generation.py:306-324 | the entry with equal operands is updated, otherwise a new one is appended; on failure it has taken part of the metadata |
| `UniqueOperations.IncludedExactly` | forge/forge/tvm_unique_op_generation.py:125-136 | stored arguments equal given ones if and only if they are among them, with the same values |
| `UniqueOperations.UpdatedRecords` | forge/forge/tvm_unique_op_generation.py:251-269 | the first record with arguments among the given ones changes only by each new metadata value at the end of its list; without one, a record of the given arguments with one value per metadata name comes last |
| `UniqueOperations.AddedLast` | forge/forge/tvm_unique_op_generation.py:321-324 | an operation on new operands gets an entry at the end with one record |
| `UniqueOperations.AddedInPlace` | forge/forge/tvm_unique_op_generation.py:315-320 | otherwise the first entry with its operands, and no other, updates its records |
| `UniqueOperations.UpdateKeeps` | forge/forge/tvm_unique_op_generation.py:251-269 | updating keeps all operations covered, no earlier argument list included in a later one, and nothing invented |
| `UniqueOperations.AddedKeeps` | forge/forge/tvm_unique_op_generation.py:306-324 | adding keeps operands pairwise distinct and every entry accounting for exactly the operations with its operands |
| `UniqueOperations.ExtendedKeeps` | forge/forge/tvm_unique_op_generation.py:465-472 | extending the table keeps all of this for every function |
| `UniqueOperations.BuiltNext` | forge/forge/tvm_unique_op_generation.py:251-269 | the next operation is accepted if and only if it is not rejected, judged by comparing it with the earlier operations |
| `UniqueOperations.RejectedExactly` | forge/forge/tvm_unique_op_generation.py:251-269 | an operation finds its record lacking one of its metadata names if and only if the first earlier operation with the same function and operands and with arguments included in its own lacks it |
| `UniqueOperations.FirstJoinedFounds` | forge/forge/tvm_unique_op_generation.py:259-269 | that earlier operation is the one that created the record |
| `UniqueOperations.ExtraMetadataIsRejected` | forge/forge/tvm_unique_op_generation.py:262-264 | the same call twice is rejected when only the second use has some metadata name, and not the other way round |
| `UniqueOperations.UniqueOperations.AddOperation` | forge/forge/tvm_unique_op_generation.py:465-472 | one operation extends the table; on failure the table is as if the operation had come with part of its metadata |
| `UniqueOperations.UniqueOperations.AddNext` | forge/forge/tvm_unique_op_generation.py:465-472 | the k-th operation is added if and only if it is not rejected, and the table then accounts for it; otherwise the table still accounts for all before |
| `UniqueOperations.UniqueOperations.CreateUniqueOperations` | forge/forge/tvm_unique_op_generation.py:394-474 | extends any table built before; it fails if and only if the first operation that some operation is recorded with lacks one of its metadata names, and then nothing recorded before is lost |
| `UniqueOperations.UniformIsAccepted` | forge/forge/tvm_unique_op_generation.py:262-264 | nothing is rejected when the operations of each function name the same metadata |
| `UniqueOperations.OperationIsRecorded` | forge/forge/tvm_unique_op_generation.py:398-474 | every operation has an entry with equal operands, a recorded argument list included in its own, and all its metadata values |
| `UniqueOperations.ArgumentsAttested` | forge/forge/tvm_unique_op_generation.py:398-474 | every recorded argument list is that of some operation with those operands |
| `UniqueOperations.MetadataAttested` | forge/forge/tvm_unique_op_generation.py:398-474 | every recorded metadata value is that of some operation the record stands for |
| `UniqueRecords.OwnRecordsExactly` | forge/forge/tvm_unique_op_generation.py:125-136 | every call of a function has a record under its own operands and arguments if and only if no call is first used after one on the same operands whose argument list is properly included in its own |
| `UniqueRecords.RecordedExactlyWhenFounder` | forge/forge/tvm_unique_op_generation.py:259-269 | a call is recorded under its own arguments if and only if it once included no argument list recorded before |
| `UniqueRecords.RecordedOnce` | forge/forge/tvm_unique_op_generation.py:306-324 | a call has at most one record |
| `UniqueRecords.SameNamesOneToOne` | forge/forge/tvm_unique_op_generation.py:125-136 | in particular, when a function's operations use the same argument names, records correspond one to one with distinct operands and arguments |
| `UniqueRecords.OrderDecidesRecords` | forge/forge/tvm_unique_op_generation.py:125-136 | of two operations whose argument lists are properly included one in the other, both get records if the larger comes first, and only one otherwise |
| `Flatten.FlattenNamed` | forge/forge/tvm_utils.py:98-148 | leaves and names of the inputs, with default names when none are given; a wrong number of names or an unsupported type is an error |
| `Flatten.FlattenInputs` | forge/forge/tvm_utils.py:113-148 | leaves depth first, one name per leaf and the name map; fails exactly on a nest that holds an unsupported type |
| `Flatten.FlattenOne` | forge/forge/tvm_utils.py:116-146 | one input's branch yields its leaves and names |
| `Flatten.FlattenStructuredOutput` | forge/forge/tvm_utils.py:151-183 | leaves depth first, skipping absent values; fails exactly on an unsupported type |
| `FlattenPaths.FlattenFollowsPaths` | forge/forge/tvm_utils.py:113-148 | every leaf is listed once, in the order of the paths that lead to the leaves, and is named after its input and every position or key on its path |
| `FlattenPaths.SupportedExactly` | forge/forge/tvm_utils.py:142-146 | flattening succeeds if and only if no path leads to a value of an unsupported type |
| `FlattenPaths.NameMapExactly` | forge/forge/tvm_utils.py:123-140 | a name is mapped to the names of the leaves of the last present input that has it |
| `Flatten.NamesAreBelow` | forge/forge/tvm_utils.py:116-130 | every leaf's name extends the name of the nest it came from |
| `Flatten.SiblingsApart` | forge/forge/tvm_utils.py:117-130 | names below different labels of one nest never coincide unless one label is the other followed by an underscore and more |
| `Flatten.DefaultNamesDistinct` | forge/forge/tvm_utils.py:108-140 | default names are pairwise distinct for lists, tuples and dictionaries nested to any depth when no dictionary has a key that extends another of its keys at an underscore |
| `Flatten.KeysKeepNamesDistinctExactly` | forge/forge/tvm_utils.py:125-135 | a dictionary with given keys keeps the names of its values distinct, for all values, if and only if no key is another one or extends another one at an underscore |
| `Flatten.SplitKeyCollides` | forge/forge/tvm_utils.py:125-130 | with a key u_v beside a key u, the dictionary {u_v: leaf, u: {v: leaf}} gives both leaves one name |
| `Flatten.NameMapListsNames` | forge/forge/tvm_utils.py:113-146 | with distinct input names, the name map read in input order lists all flattened names |
| `Decimal.RenderInjective` | forge/forge/tvm_utils.py:109-117 | decimal numerals of different positions differ |
| `Decimal.RenderReads` | forge/forge/tvm_utils.py:109-117 | a numeral read digit by digit is the number it was made from, and has no leading zero |
| `Decimal.SuffixInjective` | forge/forge/tvm_to_python.py:2158 | a text and a number joined by an underscore can be told apart again |
| `EnvSplit.FindInBuffer` | utils/env.hpp:85 | the first occurrence of the delimiter in the buffer |
| `EnvSplit.ReadCString` | utils/env.hpp:88 | the characters up to the first terminator |
| `EnvSplit.CutPiece` | utils/env.hpp:87-89 | writing the terminator and reading the piece advances the specification by one piece and uses up a live character |
| `EnvSplit.EnvAsVector` | utils/env.hpp:75-93 | the loop that searches from the beginning terminates and pushes exactly the specified pieces, unless a value meets the empty delimiter |
| `EnvSplit.CutAll` | utils/env.hpp:85-90 | the loop pushes all pieces but the last, and says where that starts |
| `EnvSplit.FindSpec` | utils/env.hpp:85 | the search finds the first occurrence, and nothing only when there is none |
| `EnvSplit.EmptyDelimiterAlwaysFound` | utils/env.hpp:85 | the loop condition holds of every buffer when the delimiter is empty, so the loop never ends |
| `EnvSplit.ScanStep` | utils/env.hpp:85-89 | with a delimiter that cannot overlap itself each search finds the next occurrence in the value |
| `EnvSplit.SplitRestores` | utils/env.hpp:75-93 | for such a delimiter the pieces are one more than the occurrences, contain no delimiter and join to the original |
| `EnvSplit.OneCharacterIsUnbordered` | utils/env.hpp:76 | one-character delimiters cannot overlap themselves |
| `EnvSplit.BorderBreaks` | utils/env.hpp:85-89 | for every self-overlapping delimiter some value is not restored |
| `EnvSplit.RestoresExactlyWhenUnbordered` | utils/env.hpp:75-93 | splitting can be undone for all values if and only if the delimiter cannot overlap itself |
| `EnvSplit.DoubledDelimiterBreaks` | utils/env.hpp:85-89 | three colons split at a double colon are not restored |
| `Signature.FindClose` | scripts/generate_ops_docs.py:224-235 | the position of the parenthesis that closes the first one, or -1 |
| `Signature.ReadChar` | scripts/generate_ops_docs.py:243-253 | one character moves the scan on without changing the parameters it will list |
| `Signature.SplitParameters` | scripts/generate_ops_docs.py:243-257 | the pieces between the commas before which as many round and square brackets are closed as opened, trimmed, without a blank last piece |
| `Signature.FormatSignature` | scripts/generate_ops_docs.py:216-265 | the loops produce exactly the layout whose properties follow |
| `Signature.FormatIsFormatted` | scripts/generate_ops_docs.py:216-265 | a signature whose first parenthesis is matched becomes its name, its parameters cut at those commas and trimmed, one indented line each with a comma but for the last, and its tail; any other is left as it is |
| `Signature.PiecesCutAtTopCommas` | scripts/generate_ops_docs.py:243-257 | the pieces are what lies between exactly those commas before which as many round and square brackets are closed as opened |
| `Signature.ParseExactly` | scripts/generate_ops_docs.py:218-238 | the parts found are exactly a name without a parenthesis, a text in which no prefix closes more than it opens and all is closed, and the rest |
| `Signature.MatchCloses` | scripts/generate_ops_docs.py:224-235 | the scan stops right after a balanced text |
| `Signature.MatchIsBalanced` | scripts/generate_ops_docs.py:224-235 | what the scan stops at closes a balanced text |
| `Signature.PiecesJoin` | scripts/generate_ops_docs.py:243-257 | the pieces joined with commas are the parameter text |
| `Signature.JoinPieces` | scripts/generate_ops_docs.py:243-257 | well-cut pieces joined with commas are cut into the same pieces again |
| `Signature.StripParts` | scripts/generate_ops_docs.py:254 | trimming takes blanks off both ends and nothing else |
| `Signature.FormattingLosesNothing` | scripts/generate_ops_docs.py:216-265 | name, parameter text and tail make up the signature, the cut is at the matching parenthesis, the pieces rejoin to the text, and each listed parameter is its piece trimmed |
| `Signature.UnparsedExactlyWhenUnmatched` | scripts/generate_ops_docs.py:218-238 | there is nothing to lay out if and only if the first parenthesis is missing or never closed |
| `Signature.UnchangedExactlyWhenLaidOut` | scripts/generate_ops_docs.py:216-265 | a signature is left alone if and only if there is nothing to lay out or its parameters stand on lines of their own already, trimmed and without a blank last one |
| `Signature.LayoutParses` | scripts/generate_ops_docs.py:258-265 | the laid-out signature is parsed into the same name and tail and the laid-out lines |
| `Signature.ListedAgain` | scripts/generate_ops_docs.py:243-264 | cutting the laid-out parameters again gives the same list without a blank last one |
| `Signature.ParamsEndBlank` | scripts/generate_ops_docs.py:254-257 | the listed parameters end with a blank one if and only if the last two pieces are blank |
| `Signature.IdempotentExactlyWhenNoBlankEnd` | scripts/generate_ops_docs.py:216-265 | formatting again changes nothing if and only if the last two pieces between top-level commas are not both blank |
| `Signature.FormattingTwiceCanDiffer` | scripts/generate_ops_docs.py:254-257 | the signature f(,) changes when formatted a second time |
| `Requirements.ParseLine` | setup.py:323-353 | a recognized line is its package name followed by its version part |
| `Requirements.ParseIsUnique` | setup.py:323-353 | no other cut of the line into a name and a version part exists |
| `Requirements.ParseExactly` | setup.py:323-353 | a line is parsed into a name and a version part if and only if the pattern, spelled out by code points, matches it so |
| `Requirements.CollectModelRequirements` | setup.py:337-385 | fails if and only if a line is not recognized or two different versions precede the first unversioned spec; otherwise each package is unversioned if any spec was and has the common version if none was |
| `Requirements.MergeOne` | setup.py:355-383 | one spec keeps the merge right or reveals a conflict |
| `Requirements.OrderIrrelevant` | setup.py:333-387 | two orders of the same specs that both succeed give the same result |
| `Requirements.OrderDecidesExactly` | setup.py:355-377 | two orders of the same specs can differ in success if and only if some package has two different versions and every such package is also listed without one |
| `Requirements.OrderDecidesSuccess` | setup.py:355-377 | an unversioned spec silences conflicts after it but not before it |

## Left out

- Tracing the modules' `forward` (compile.py:1108-1130), which module an output belongs to, and how input node names are read off the signatures: they are inputs of the model.
- Trace tensors are numbered in creation order, which is what makes a trace acyclic.
- Shapes, data formats, tags, `requires_grad`, intermediate values and the parameter that a loopback input adds to its module.
- The loopback datacopy edges and the removal of looped-back outputs (compile.py:1403-1417).
- GraphNames.WellPosedHasNoError: well-posedness is judged from the request alone and sufficient for success; the exact condition, `GraphRuns.Translatable`, follows the queue, because two nodes that could be given one name may be named apart by its order.
- ParameterSharing.AgreeingNamesPreserveMeaning: sufficient only when an unnamed parameter has consumers of different names, because the queue decides which of them names it.
- Node ids are consecutive from `firstId`: no other thread creates nodes meanwhile, and an id that a refused node used up is not seen again.
- ThreadSafeQueue: references that `front`, `back` and `at` return after unlocking, `empty` and `size`, and the copy constructor. Methods are steps of a transition system, not Dafny methods, because Dafny has no threads.
- ThreadSafeQueue.NoLostWakeup: says that a woken consumer exists, not that the scheduler ever runs it; fairness is not modelled. Bounded queues have no such property.
- Submodule calls and their loops in the code generator, which are disabled, `set_src_layer`, and the text of the emitted lines beyond names and their order.
- GeneratedForward.DroppingPreservesMeaning: each op call is taken to return a new tensor object, so two names never share the dropped value.
- TransposeLowering.PopulateTransposeArgs: the recorded rank is taken to be the number of axes, and the rewriting of the node's own attributes is not modelled.
- Adam works element by element over the reals, without rounding, with `sqrt` any function with the stated facts and epsilon positive; amsgrad, sparse gradients, closures and parameter groups are left out.
- AdamBiasCorrection.FirstStepMatchesTorch: only the first step, because `torch_parameter_update` never stores the moments it computes.
- Other optimizers, schedulers and the registration of optimizer inputs.
- SmallVector: `resize`, `memcmp` equality, the iterator arithmetic of `erase`, how SizeElems follows from element sizes, destructors, the heap vector that assignment abandons, arguments that alias the vector's own elements, and destroying and constructing elements as raw bytes.
- SmallVector.SmallVector.Assign: excludes assigning a vector to itself while its elements are on the heap, because the code then copies the vector header from the bytes it is constructing.
- SimpleQueue: changing the offset, copying, and names.
- ConstantEvaluation: data types and contiguity of the copied tensors, and an empty dictionary recorded as a subgraph.
- UniqueOperations: nested lists are values, not objects. Node-type validation, shape and data-type overrides happen before an operation enters the model.
- EnvSplit.EnvAsVector: a value with the empty delimiter, on which the loop does not end, is excluded; reading the environment and casting pieces to other types are left out.
- Flatten: dictionary keys are the strings they are formatted as, tensors of all frameworks are one type, and `force_float32` is unused in the code.
- Signature: the rest of the documentation generator.
- Requirements: finding and reading the files, and the final sorted listing, which depends on the merged map alone. The file names kept for messages are dropped.
- Graph passes, lowering, runtime, device handling, JSON queries, logging, reports and packaging: thin glue, or code whose bodies are outside the modelled files.
