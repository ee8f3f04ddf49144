# Halik: a verified model

Halik is a Java agent. It rewrites the bytecode of a program so that the program records its
own execution, buffers the recording per thread, and later reads it back. This project models
its core in Dafny and proves what it is built to guarantee:

- **Rewriting keeps the meaning of a program** (`Jvm`, `Instrumentation`, `BlockProofs`,
  `Simulation`, `Equivalence`, `PendingSlots`, `Trace`, `Reports`, `Fusion`, `Visitors`, `Chain`,
  `CallSites`, `VariableTables`, `StackWords`). Methods are lists of instructions with labels,
  jumps, switches, calls and exception handlers, over stacks of one- and two-slot values, locals and a heap. The stack
  instructions follow section 6.5 of the Java Virtual Machine Specification (SE 7), the
  categories of values its section 2.11.1. The visitors are classes that emit instructions;
  what they emit is proved to be a function of the body, and that function is proved to
  preserve every run, for every combination of visitors. The visitor of the stack depth comes
  last: its transformer is the one registered as able to retransform, and the virtual machine
  runs those behind all others. Methods that are not instrumented behave as an arbitrary
  deterministic environment says.
- **Whole programs** (`Programs`, `ProgramTraces`, `RecordedDepth`): a thread of rewritten
  methods that call each other keeps the same stack of activations as the original, its
  interleaved trace tells what all of them did, and the depth recorded for a line is the height
  of that stack.
- **Class hierarchy** (`Hierarchy`): subtyping and least common superclasses as the frame
  computation needs them.
- **Recording** (`LineBuffer`, `Documents`, `ShallowView`, `ObjectsPacker`, `Recorder`,
  `Recordings`, `Trackers`, `Replay`, `StreamFormat`, `FlowCapture`, `RecordAndReplay`): the
  hooks of one thread as a state machine (`Recorder`) with theorems over all runs, the objects that refine it
  (`FlowCapture`), the shallow packer with its declared sizes, the line-aligned buffer below
  it, and the merge of the two recorded streams.
- **The whole way** (`Composition`, `Telling`): the trace of a rewritten method or program, fed
  to the recorder and read back from its two streams, gives the lines the original entered, each with
  exactly what the original modified since the line before.
- **Variable definitions** (`Pairing`, `DefinitionIndex`), the **argument string** (`Arguments`)
  and the **class index** (`ClassIndex`), each a round trip between two programs.
- The two demo programs, quicksort and the neuron network (`QuickSort`, `NeuronNetwork`).

`dafny verify dfyconfig.toml` checks everything.

## Where the code does less than it says

Some properties hold only under a condition. The code is modelled as it is, and the condition
is proved to be exact:

- A pending slot is loaded with the opcode of its last store even when a later two-slot store
  has overwritten half of it; the rewritten method is then not executable
  (`PendingSlots.ReadableExactly`, `PendingSlots.OverlapBreaks`).
- Class, method, line and label numbers are operands of `sipush`, which keeps 16 bits
  (`Trace.LineNumbersExactly`).
- The collection and map visitors move the result of a call as if it had at most one slot, so
  an observed call that returns a two-slot value breaks (`CallSites.CollectionCallExactly`,
  `CallSites.MapCallExactly`, `CallSites.StaticCallExactly`).
- The collection visitor reads the owner's internal name as a descriptor. A name that reads as
  an unfinished type loses the call; for one that reads as a two-slot type the value below the
  operands is copied and reported instead of the receiver (`CallSites.CollectionCallExactly`).
- Behind an observed constructor whatever lies below its operands is reported, which is the
  constructed collection exactly when a copy of the receiver lies there
  (`CallSites.ConstructorCallExactly`).
- The common superclass of an interface with itself is `java/lang/Object`
  (`Hierarchy.CommonOfItself`).
- Only exceptions end the capture. An error thrown while packing, by an object asked for its
  text for one, leaves a torn record behind which the next one is written
  (`Recordings.AtomicUnlessErrorIsContinued`, `Replay.ErrorTearsALine`).
- Fields assigned before the first captured line are reported once when equal, later ones each
  time (`Trackers.FieldsExactly`).
- The pattern `.*` at the end of a list is lost between plugin and agent
  (`Arguments.FiltersExactly`).
- A quote or backslash in a class name breaks the class index (`ClassIndex.ClassIndexRoundTrip`).
- The pivot index of quicksort lies in its segment exactly when the sum of the segment's bounds
  is less than 2^31; otherwise, and for the empty array, reading the pivot throws
  (`QuickSort.MiddleExactly`, `QuickSort.Partition`).

## Model

| member | source | states |
|---|---|---|
| `BlockProofs.DuplicateSecondCopies` | javaagent/src/main/java/io/halik/agent/BytecodeUtilitiesDumpingGround.java:45-60 | the shuffle that duplicates the reference second from the top leaves the reference, then the reference again, then the value of either category on top, and touches nothing below |
| `BlockProofs.DuplicateThirdCopies` | javaagent/src/main/java/io/halik/agent/BytecodeUtilitiesDumpingGround.java:62-71 | the shuffle for the third value from the top leaves a copy of it below the three operands, in order |
| `BlockProofs.DuplicateWideArrayCopies` | javaagent/src/main/java/io/halik/agent/BytecodeUtilitiesDumpingGround.java:73-80 | the shuffle before a two-slot array store leaves the operands on top of a copy of the array reference and one more slot above it, which the extra pop removes |
| `StackWords.ShuffleMovesWords` | javaagent/src/main/java/io/halik/agent/BytecodeUtilitiesDumpingGround.java:45-80 | each of the nine stack instructions the shuffles are made of is possible exactly where it cuts no two-slot value in half, and then copies, drops or moves the words its description says |
| `StackWords.WordsTell` | javaagent/src/main/java/io/halik/agent/BytecodeUtilitiesDumpingGround.java:45-80 | the words of a stack determine it, so the shuffles are determined |
| `BlockProofs.CaptureCodeReports` | javaagent/src/main/java/io/halik/agent/capture/track/variables/TypeInModification.java:77-81 | the code written for a set of slots reports each slot with the value it holds and leaves stack, locals and heap as they were |
| `BlockProofs.CaptureCodeSticks` | javaagent/src/main/java/io/halik/agent/capture/track/variables/TypeInModification.java:77-81 | the same code goes wrong as soon as one slot does not hold a value of the kind it is loaded with |
| `BlockProofs.ArrayBlock` | javaagent/src/main/java/io/halik/agent/transform/methodVisitors/CaptureArrayModificationMethodVisitor.java:32-50 | a rewritten array store of either category does to stack, locals and heap what the store does, exceptions included, and reports exactly the array stored into |
| `BlockProofs.FieldBlock` | javaagent/src/main/java/io/halik/agent/transform/methodVisitors/CaptureFieldAssignmentMethodVisitor.java:35-61 | a rewritten putfield does what putfield does and reports object, field name and the value just stored; synthetic fields report nothing |
| `BlockProofs.LabelBlock` | javaagent/src/main/java/io/halik/agent/transform/methodVisitors/CaptureVariableAssignmentMethodVisitor.java:76-82 | the code around a label reports the pending and newly declared slots and falls through unchanged |
| `BlockProofs.JumpBlock` | javaagent/src/main/java/io/halik/agent/transform/methodVisitors/CaptureVariableAssignmentMethodVisitor.java:90-103 | the code before a jump reports the pending slots, and the jump goes where it went, taken or not |
| `BlockProofs.LineBlock` | javaagent/src/main/java/io/halik/agent/transform/methodVisitors/CaptureFlowMethodVisitor.java:65-77 | the code around a line number reports the line with class, method and label numbers and then the pending slots |
| `BlockProofs.ExitBlock` | javaagent/src/main/java/io/halik/agent/transform/methodVisitors/CaptureFlowMethodVisitor.java:41-57 | whenever an instruction leaves the method, or is a throw and throws, its rewriting dumps the leftover variables if lines are observed, then decreases the depth if the depth is, and leaves with the same value or exception |
| `BlockProofs.CopiedCallBlock` | javaagent/src/main/java/io/halik/agent/transform/methodVisitors/CaptureCollectionModificationMethodVisitor.java:34-76 | a call rewritten with a copied operand leaves the stack the call leaves and reports exactly that operand, in the heap after the call |
| `BlockProofs.ResultCallBlock` | javaagent/src/main/java/io/halik/agent/transform/methodVisitors/CaptureCollectionModificationMethodVisitor.java:61-72 | behind asList and observed constructors the reference left on top is reported and kept; which reference that is, CallSites.AsListCallExactly and CallSites.ConstructorCallExactly say |
| `BlockProofs.BlockIsFaithful` | javaagent/src/main/java/io/halik/agent/transform/methodVisitors/CaptureArrayModificationMethodVisitor.java:32-50 | for every instruction and every combination of visitors: the rewritten instruction falls through, jumps, returns or throws exactly as the original, with the same stack, locals and heap, and adds exactly the expected events to the trace |
| `Simulation.LabelsStay` | javaagent/src/main/java/io/halik/agent/transform/methodVisitors/CaptureVariableAssignmentMethodVisitor.java:76-82 | a label of the rewritten body stands right before its original position and no label is lost or added |
| `Simulation.CoverageStays` | javaagent/src/main/java/io/halik/agent/transform/classVisitors/CaptureFlowAndStateClassVisitor.java:55-81 | an instruction lies in the guarded range of an exception handler after rewriting exactly when it did before |
| `Simulation.HandlersStay` | javaagent/src/main/java/io/halik/agent/transform/classVisitors/CaptureFlowAndStateClassVisitor.java:55-81 | an exception thrown by an original instruction finds the same handler |
| `Simulation.StepSimulates` | javaagent/src/main/java/io/halik/agent/transform/methodVisitors/CaptureFlowMethodVisitor.java:41-77 | one step of the original method is matched by the run of its rewritten block, for jumps, switches, calls, exits and caught exceptions |
| `Simulation.RunSimulates` | javaagent/src/main/java/io/halik/agent/transform/classVisitors/CaptureFlowAndStateClassVisitor.java:55-81 | main theorem: for every method body, every combination of visitors and every run of any length, the rewritten method reaches the same instruction with the same stack, locals and heap; only the trace differs, and by exactly the events of the run |
| `Equivalence.WorksExactlyWhenSafe` | javaagent/src/main/java/io/halik/agent/transform/VariableStateCapturer.java:36-42 | the rewritten method never goes wrong if and only if, in every state the original reaches, each captured slot holds a value of the kind it is loaded with and each observed constructor call leaves a reference on the stack |
| `Equivalence.UnsafeGoesWrong` | javaagent/src/main/java/io/halik/agent/transform/VariableStateCapturer.java:36-42 | at the first state where this fails the rewritten method goes wrong although the original goes on |
| `Equivalence.SameResults` | javaagent/src/main/java/io/halik/agent/transform/classVisitors/CaptureFlowAndStateClassVisitor.java:55-81 | otherwise it returns the same result, throws the same exception or diverges exactly as the original does |
| `Equivalence.EntrySimulates` | javaagent/src/main/java/io/halik/agent/transform/methodVisitors/CaptureStackTraceDepthMethodVisitor.java:31-35 | entering the rewritten method increases the depth and arrives at the image of the original entry state |
| `PendingSlots.PendingIsLastStore` | javaagent/src/main/java/io/halik/agent/transform/VariableStateCapturer.java:32-34 | after any instructions a slot is pending with a kind exactly when its last store since the last capture point was of that kind |
| `PendingSlots.NothingPendingAfterCapture` | javaagent/src/main/java/io/halik/agent/transform/methodVisitors/CaptureVariableAssignmentMethodVisitor.java:76-103 | after every label, line number and jump no store is pending |
| `PendingSlots.SlotEventsExact` | javaagent/src/main/java/io/halik/agent/transform/VariableStateCapturer.java:36-42 | a capture reports each of its slots once, with the value held, and no other slot |
| `PendingSlots.CapturePointReports` | javaagent/src/main/java/io/halik/agent/transform/VariableStateCapturer.java:36-52 | at a capture point slot n with value v is reported once if n was stored since the last capture point or is declared there, holds v and is not slot 0 of a constructor, and not at all otherwise |
| `PendingSlots.ReadableExactly` | javaagent/src/main/java/io/halik/agent/capture/track/variables/TypeInModification.java:65-81 | the load for a pending slot finds its kind if and only if no later store overlaps the slot and the slots declared at the label hold values of their declared kinds |
| `PendingSlots.RunAgrees` | javaagent/src/main/java/io/halik/agent/capture/track/variables/TypeInModification.java:65-75 | in every reachable state the locals hold, for each pending slot not overlapped since, a value of the kind of its last store |
| `PendingSlots.VariableCaptureExactly` | javaagent/src/main/java/io/halik/agent/transform/VariableStateCapturer.java:32-42 | the method rewritten for variables never goes wrong if and only if at every capture point reached these conditions hold |
| `PendingSlots.WithoutOverlapsSound` | javaagent/src/main/java/io/halik/agent/transform/VariableStateCapturer.java:32-42 | a check on the code alone, for any variable table: the body is always captured soundly when no two-slot value overlaps a pending slot, the slots declared behind the first instruction were just stored with their declared kinds, and those declared at it, the parameters, hold theirs on entry |
| `PendingSlots.OverlapBreaks` | javaagent/src/main/java/io/halik/agent/transform/VariableStateCapturer.java:32-42 | the condition is needed: a method that stores a long and then an int over its upper half, entered with an empty stack, returns normally but goes wrong once rewritten |
| `Trace.TraceIsFaithful` | javaagent/src/main/java/io/halik/agent/transform/methodVisitors/CaptureArrayModificationMethodVisitor.java:32-50 | over any run, for each kind of event and for all but the depth changes together: the reported arrays are exactly the arrays stored into, the field triples the non-synthetic fields assigned with the values just stored, the lines those executed, the collections and maps the receivers or first arguments of the observed calls that returned, or the collection such a call constructed, the variables the slots due at the capture points passed; on runs without exceptions the depth changes are exactly the exits |
| `Trace.StoreTouchesReportedArray` | javaagent/src/main/java/io/halik/agent/transform/methodVisitors/CaptureArrayModificationMethodVisitor.java:40-49 | the array reported for a store is the one array whose elements the store may change |
| `Trace.LineNumbersExactly` | javaagent/src/main/java/io/halik/agent/transform/methodVisitors/CaptureFlowMethodVisitor.java:71-77 | class, method, line and label numbers arrive unchanged if and only if each fits the 16-bit operand of sipush |
| `Reports.ExitsReported` | javaagent/src/main/java/io/halik/agent/transform/methodVisitors/CaptureFlowMethodVisitor.java:41-57 | in every state in which the original goes on, a step adds one dump and one decrease, in this order and as far as each is observed, exactly when it returns from the method or is a throw that throws; every other step adds neither |
| `Reports.ExitsExpected` | javaagent/src/main/java/io/halik/agent/transform/methodVisitors/CaptureStackTraceDepthMethodVisitor.java:37-53 | and these steps alone are expected to |
| `Reports.RunExits` | javaagent/src/main/java/io/halik/agent/transform/methodVisitors/CaptureFlowMethodVisitor.java:41-57 | over every run there are as many dumps and as many decreases as steps that leave the method |
| `Reports.ActivationLeft` | javaagent/src/main/java/io/halik/agent/transform/methodVisitors/CaptureFlowMethodVisitor.java:41-57 | the trace of an activation left by a return or by a throw of its own ends with the dump and the decrease; the step in which any other exception leaves it adds neither |
| `Reports.FetchReported` | javaagent/src/main/java/io/halik/agent/transform/methodVisitors/CaptureStackTraceDepthMethodVisitor.java:55-68 | a step fetches the depth anew exactly when it enters the observed catch block, by falling through its label, by a jump or by an exception |
| `Reports.UnobservedExactly` | javaagent/src/main/java/io/halik/agent/transform/methodVisitors/CaptureCollectionModificationMethodVisitor.java:34-114 | a call is written without a single instruction around it exactly when it is none of those looked for: a listed static method of java/util/Collections with one or two narrow arguments, Arrays.asList, a constructor of an observed class, a method of one with one or two narrow arguments, or a two-argument method of an observed map class |
| `Reports.UnobservedTellsNothing` | javaagent/src/main/java/io/halik/agent/transform/methodVisitors/CaptureMapModificationMethodVisitor.java:33-64 | at no call site does such a call give rise to an event, and its rewriting is faithful |
| `Reports.CallReported` | javaagent/src/main/java/io/halik/agent/transform/methodVisitors/CaptureCollectionModificationMethodVisitor.java:34-76 | a call that returns reports, by its owner, name and signature, the first argument of a helper, the receiver of a method, the collection that a constructor or asList leaves, or the map |
| `Reports.NoCall` | javaagent/src/main/java/io/halik/agent/transform/methodVisitors/CaptureCollectionModificationMethodVisitor.java:34-114 | no instruction but a call reports a collection or a map |
| `Reports.AdmittedExactly` | javaagent/src/main/java/io/halik/agent/transform/methodVisitors/CaptureCollectionModificationMethodVisitor.java:59-72 | which calls the theorems on rewriting admit, by owner, name and signature |
| `Reports.OriginalExactly` | javaagent/src/main/java/io/halik/agent/transform/classVisitors/CaptureFlowAndStateClassVisitor.java:55-81 | which bodies they admit: all without hook calls whose calls are admitted |
| `Reports.ArrayReported` | javaagent/src/main/java/io/halik/agent/transform/methodVisitors/CaptureArrayModificationMethodVisitor.java:32-50 | a step reports an array exactly when it is one of the eight array stores and gets through, and then the array under index and value |
| `Reports.FieldReported` | javaagent/src/main/java/io/halik/agent/transform/methodVisitors/CaptureFieldAssignmentMethodVisitor.java:35-66 | a step reports a field exactly when it assigns one whose name and type are not listed as synthetic, and then the object, the name and what the field holds afterwards |
| `Reports.LineReported` | javaagent/src/main/java/io/halik/agent/transform/methodVisitors/CaptureFlowMethodVisitor.java:65-77 | a step reports a line exactly when it enters one, with class, method, line and label number each unchanged if it fits 16 bits |
| `Reports.LabelsInOrder` | javaagent/src/main/java/io/halik/agent/transform/methodVisitors/CaptureFlowMethodVisitor.java:59-63 | the number of a label is the number of labels marked before it |
| `Reports.VariableReported` | javaagent/src/main/java/io/halik/agent/transform/methodVisitors/CaptureVariableAssignmentMethodVisitor.java:76-116 | a step reports a slot with a value, once, exactly when it is a label, a line or a jump, the slot was stored since the last of these or a variable in it starts at the label by its number, and it holds the value; slot 0 of a constructor excepted |
| `Trace.OneDecrease` | javaagent/src/main/java/io/halik/agent/transform/methodVisitors/CaptureStackTraceDepthMethodVisitor.java:37-53 | a run that returns without exceptions passes exactly one decrease |
| `Trace.DepthBalanced` | javaagent/src/main/java/io/halik/agent/transform/methodVisitors/CaptureStackTraceDepthMethodVisitor.java:31-53 | on such a run the depth at exit, entry included, is what it was before; for calls nested to any depth see ProgramTraces.DepthIsHeight |
| `Programs.ThreadSimulates` | javaagent/src/main/java/io/halik/agent/transform/classVisitors/CaptureFlowAndStateClassVisitor.java:55-81 | main theorem, whole programs: for every program, whatever combination of visitors each method is rewritten with, and every run of a thread through calls, returns and throws to any depth, the rewritten thread has the same activations with the same stacks, locals and heap, and its trace is the interleaved events of all activations |
| `Programs.TickSimulates` | javaagent/src/main/java/io/halik/agent/transform/classVisitors/CaptureFlowAndStateClassVisitor.java:55-81 | each step of the original thread, within an activation, into a method, back by return or by throw, is matched by the rewritten thread |
| `Programs.CallTick` | javaagent/src/main/java/io/halik/agent/transform/methodVisitors/CaptureStackTraceDepthMethodVisitor.java:31-35 | a call enters the rewritten callee with the same arguments, the copy of the operand to be reported stays below in the caller, and the callee reports its entry first |
| `Programs.ResumeTick` | javaagent/src/main/java/io/halik/agent/transform/methodVisitors/CaptureCollectionModificationMethodVisitor.java:59-72 | after whatever the callee answered or threw the rewritten caller goes on as the original does, and the observed operand is reported behind all the events of the callee |
| `Programs.ThreadStarts` | javaagent/src/main/java/io/halik/agent/transform/methodVisitors/CaptureStackTraceDepthMethodVisitor.java:31-35 | the outermost method is entered through its own prologue |
| `ProgramTraces.ThreadTrace` | javaagent/src/main/java/io/halik/agent/transform/methodVisitors/CaptureArrayModificationMethodVisitor.java:32-50 | over any run of a thread the events of each kind are, in order, what its activations stored into, assigned, entered and modified |
| `ProgramTraces.DepthIsHeight` | javaagent/src/main/java/io/halik/agent/transform/methodVisitors/CaptureStackTraceDepthMethodVisitor.java:31-68 | at every point of a run without exceptions the depth counter has moved exactly as the stack of calls has |
| `RecordedDepth.RecorderDepth` | javaagent/src/main/java/io/halik/agent/capture/FlowPerThread.java:155-175 | fed with any trace, the recorder knows the depth that entries, exits and fetches amount to |
| `RecordedDepth.LineRecordsDepth` | javaagent/src/main/java/io/halik/agent/capture/Flow.java:265-282 | every line of a trace that is reached before capture is given up has its record among the merged lines, with the depth that the events before it amount to |
| `RecordedDepth.RecordedDepthIsHeight` | javaagent/src/main/java/io/halik/agent/transform/methodVisitors/CaptureStackTraceDepthMethodVisitor.java:31-68 | for every line that a thread enters in a run without exceptions, the merged line of it holds the height of the stack of calls at that moment, counted from the non-negative depth fetched when the thread began |
| `Fusion.StagesFuse` | javaagent/src/main/java/io/halik/agent/transform/classVisitors/CaptureFlowAndStateClassVisitor.java:55-81 | rewriting by one part of the visitors and then by later ones is rewriting by all of them at once, the visitor of the stack depth as the last included |
| `Fusion.BlockStages` | javaagent/src/main/java/io/halik/agent/transform/classVisitors/CaptureFlowAndStateClassVisitor.java:55-81 | what later visitors make of a block written by earlier ones is the block of both together |
| `Fusion.ContextStays` | javaagent/src/main/java/io/halik/agent/transform/methodVisitors/CaptureVariableAssignmentMethodVisitor.java:76-103 | inserted code leaves what the visitors remember, pending slots and label numbers, as it was |
| `Chain.LinesStay` | javaagent/src/main/java/io/halik/agent/transform/methodVisitors/CaptureFlowMethodVisitor.java:65-69 | rewriting keeps every line number behind the label it names |
| `Chain.Instrument` | javaagent/src/main/java/io/halik/agent/transform/classVisitors/CaptureFlowAndStateClassVisitor.java:55-81 | running the visitors one after another over a body, the visitor of the stack depth last, gives the rewriting of the theorems above |
| `Visitors.CaptureArrayModificationMethodVisitor.VisitInsn` | javaagent/src/main/java/io/halik/agent/transform/methodVisitors/CaptureArrayModificationMethodVisitor.java:32-50 | emits around an instruction exactly the block proved faithful for array stores, and nothing around any but the eight of them |
| `Visitors.CaptureFieldAssignmentMethodVisitor.VisitPutField` | javaagent/src/main/java/io/halik/agent/transform/methodVisitors/CaptureFieldAssignmentMethodVisitor.java:35-61 | emits around a putfield exactly the block proved faithful for fields |
| `Visitors.CaptureVariableAssignmentMethodVisitor.VisitIincInsn` | javaagent/src/main/java/io/halik/agent/transform/methodVisitors/CaptureVariableAssignmentMethodVisitor.java:53-57 | emits the increment and makes its slot pending as an int |
| `Visitors.CaptureVariableAssignmentMethodVisitor.VisitStoreInsn` | javaagent/src/main/java/io/halik/agent/transform/methodVisitors/CaptureVariableAssignmentMethodVisitor.java:59-66 | emits the store and makes its slot pending with the kind of the store |
| `Visitors.CaptureVariableAssignmentMethodVisitor.VisitLabel` | javaagent/src/main/java/io/halik/agent/transform/methodVisitors/CaptureVariableAssignmentMethodVisitor.java:76-82 | numbers the label, captures pending and declared slots, then emits the label and forgets them |
| `Visitors.CaptureVariableAssignmentMethodVisitor.CaptureFromDeclarations` | javaagent/src/main/java/io/halik/agent/transform/methodVisitors/CaptureVariableAssignmentMethodVisitor.java:105-116 | makes every slot declared from the label pending with its declared kind; which slots and kinds these are, VariableTables.TableFor says |
| `VariableTables.TableFor` | javaagent/src/main/java/io/halik/agent/transform/methodVisitors/CaptureVariableAssignmentMethodVisitor.java:105-116 | the slots declared from each label are exactly those the index of definitions answers for it, with the kinds that the letters of their types stand for, and among them is the last tracked definition in scope of every slot, if it starts there |
| `VariableTables.KindsAt` | javaagent/src/main/java/io/halik/agent/capture/track/variables/TypeInModification.java:41-57 | the slots of the definitions starting at one label, each with the kind of its type |
| `Visitors.CaptureVariableAssignmentMethodVisitor.VisitLineNumber` | javaagent/src/main/java/io/halik/agent/transform/methodVisitors/CaptureVariableAssignmentMethodVisitor.java:84-88 | emits the line number and then captures the pending slots |
| `Visitors.CaptureVariableAssignmentMethodVisitor.VisitJumpInsn` | javaagent/src/main/java/io/halik/agent/transform/methodVisitors/CaptureVariableAssignmentMethodVisitor.java:90-103 | captures the pending slots before the jump |
| `Visitors.CaptureFlowMethodVisitor.VisitInsn` | javaagent/src/main/java/io/halik/agent/transform/methodVisitors/CaptureFlowMethodVisitor.java:41-57 | emits the dump before each of the six returns and athrow, and nothing before any other instruction |
| `Visitors.CaptureFlowMethodVisitor.VisitLabel` | javaagent/src/main/java/io/halik/agent/transform/methodVisitors/CaptureFlowMethodVisitor.java:59-63 | numbers labels in the order they are visited |
| `Visitors.CaptureFlowMethodVisitor.VisitLineNumber` | javaagent/src/main/java/io/halik/agent/transform/methodVisitors/CaptureFlowMethodVisitor.java:65-77 | emits the line capture with the numbers of class, method, line and label |
| `Visitors.CaptureCollectionModificationMethodVisitor.VisitMethodInsn` | javaagent/src/main/java/io/halik/agent/transform/methodVisitors/CaptureCollectionModificationMethodVisitor.java:34-76 | emits around a call exactly the block of the collection visitor, the call itself being lost when reading the owner fails; emits the call alone exactly when it is neither a listed method of java/util/Collections nor Arrays.asList nor a constructor or a method, with one or two narrow arguments, of an observed class |
| `Visitors.PlanExactly` | javaagent/src/main/java/io/halik/agent/transform/methodVisitors/CaptureCollectionModificationMethodVisitor.java:34-114 | the collection visitor does nothing for a call exactly when it is none of those looked for by owner, name and signature |
| `Visitors.CaptureCollectionModificationMethodVisitor.CopyOperand` | javaagent/src/main/java/io/halik/agent/transform/methodVisitors/CaptureCollectionModificationMethodVisitor.java:36-58 | chooses the copied operand by call kind, arity and argument sizes |
| `Visitors.CaptureMapModificationMethodVisitor.VisitMethodInsn` | javaagent/src/main/java/io/halik/agent/transform/methodVisitors/CaptureMapModificationMethodVisitor.java:33-56 | emits around a call exactly the block of the map visitor, and the call alone exactly when it is not an instance method with two narrow arguments of an observed class |
| `Visitors.CaptureStackTraceDepthMethodVisitor.VisitCode` | javaagent/src/main/java/io/halik/agent/transform/methodVisitors/CaptureStackTraceDepthMethodVisitor.java:31-35 | emits the increase at method entry |
| `Visitors.VariableStateCapturer.TrackOnVariableModification` | javaagent/src/main/java/io/halik/agent/transform/VariableStateCapturer.java:32-34 | puts the kind of the slot over what was there |
| `Visitors.VariableStateCapturer.CaptureState` | javaagent/src/main/java/io/halik/agent/transform/VariableStateCapturer.java:36-42 | emits load, slot number and call for every pending slot, slot 0 of a constructor excepted, and starts afresh |
| `Visitors.AfterVariableUsage` | javaagent/src/main/java/io/halik/agent/capture/track/variables/TypeInModification.java:65-75 | of all types exactly the one whose store or increment it is makes the slot pending |
| `Visitors.RunArrays` | javaagent/src/main/java/io/halik/agent/transform/methodVisitors/CaptureArrayModificationMethodVisitor.java:27-51 | visiting a whole body instruction by instruction produces the rewriting of the theorems, with this visitor alone |
| `Visitors.RunFields` | javaagent/src/main/java/io/halik/agent/transform/methodVisitors/CaptureFieldAssignmentMethodVisitor.java:26-66 | visiting a whole body instruction by instruction produces the rewriting of the theorems, with this visitor alone |
| `Visitors.RunVariables` | javaagent/src/main/java/io/halik/agent/transform/methodVisitors/CaptureVariableAssignmentMethodVisitor.java:36-117 | visiting a whole body instruction by instruction produces the rewriting of the theorems, with this visitor alone |
| `Visitors.RunFlow` | javaagent/src/main/java/io/halik/agent/transform/methodVisitors/CaptureFlowMethodVisitor.java:27-77 | visiting a whole body instruction by instruction produces the rewriting of the theorems, with this visitor alone |
| `Visitors.RunCollections` | javaagent/src/main/java/io/halik/agent/transform/methodVisitors/CaptureCollectionModificationMethodVisitor.java:28-114 | visiting a whole body instruction by instruction produces the rewriting of the theorems, with this visitor alone |
| `Visitors.RunMaps` | javaagent/src/main/java/io/halik/agent/transform/methodVisitors/CaptureMapModificationMethodVisitor.java:27-66 | visiting a whole body instruction by instruction produces the rewriting of the theorems, with this visitor alone |
| `Visitors.RunDepth` | javaagent/src/main/java/io/halik/agent/transform/methodVisitors/CaptureStackTraceDepthMethodVisitor.java:24-68 | visiting a whole body instruction by instruction produces the rewriting of the theorems, with this visitor alone |
| `CallSites.CollectionCallExactly` | javaagent/src/main/java/io/halik/agent/transform/methodVisitors/CaptureCollectionModificationMethodVisitor.java:48-72 | at every call site, over any stack: a call of an observed class with one or two one-slot arguments keeps its effect and reports its receiver if and only if, when it returns, its result is not a two-slot value; with one argument and an owner whose name begins with J or D, if and only if moreover a one-slot value lies below the operands that, when the call returns, is the receiver; never with one argument and an owner that begins with L and has no semicolon |
| `CallSites.MapCallExactly` | javaagent/src/main/java/io/halik/agent/transform/methodVisitors/CaptureMapModificationMethodVisitor.java:33-56 | at every call site, over any stack: an observed two-argument map call keeps its effect and reports the map if and only if, when it returns, its result is not a two-slot value |
| `CallSites.StaticCallExactly` | javaagent/src/main/java/io/halik/agent/transform/methodVisitors/CaptureCollectionModificationMethodVisitor.java:39-47 | at every call site: an observed static call on java/util/Collections keeps its effect and reports its first argument if and only if, when it returns, its result is not a two-slot value and that argument is a reference |
| `CallSites.ConstructorCallExactly` | javaagent/src/main/java/io/halik/agent/transform/methodVisitors/CaptureCollectionModificationMethodVisitor.java:61-71 | at every call site: an observed constructor call gets through if and only if, when it returns, a reference lies directly below its operands, and reports the constructed collection if and only if that reference is its receiver |
| `CallSites.AsListCallExactly` | javaagent/src/main/java/io/halik/agent/transform/methodVisitors/CaptureCollectionModificationMethodVisitor.java:61-72 | a call of Arrays.asList keeps the list it returns and reports that list, if and only if its result is a reference |
| `CallSites.CopyExactly` | javaagent/src/main/java/io/halik/agent/transform/methodVisitors/CaptureCollectionModificationMethodVisitor.java:59-72 | whatever value was copied below the operands of a call, the call keeps its effect and reports its deepest operand if and only if, when it returns, its result takes at most one slot and the copy is that operand and a reference |
| `Hierarchy.ImplementsExactly` | javaagent/src/main/java/io/halik/agent/transform/utils/ComputeCommonSuperClass.java:174-193 | on a complete acyclic hierarchy the interface search answers whether the interface is reached by superclass and interface edges |
| `Hierarchy.AncestorsExactly` | javaagent/src/main/java/io/halik/agent/transform/utils/ComputeCommonSuperClass.java:150-163 | the ancestor list of a class is its chain of superclasses, root first |
| `Hierarchy.LeastCommonSuperclass` | javaagent/src/main/java/io/halik/agent/transform/utils/ComputeCommonSuperClass.java:96-127 | for two classes the computed class is a common ancestor, and every common ancestor class is reached from it |
| `Hierarchy.InstanceOfExactly` | javaagent/src/main/java/io/halik/agent/transform/utils/ComputeCommonSuperClass.java:83-86 | isInstanceOf holds exactly when the second type is reached from the first, or is the first |
| `Hierarchy.CommonCommutes` | javaagent/src/main/java/io/halik/agent/transform/utils/ComputeCommonSuperClass.java:88-127 | for distinct types the order does not matter |
| `Hierarchy.CommonOfItself` | javaagent/src/main/java/io/halik/agent/transform/utils/ComputeCommonSuperClass.java:88-127 | a type's common superclass with itself is itself if and only if it is not an interface |
| `Hierarchy.InstanceOfSound` | javaagent/src/main/java/io/halik/agent/transform/utils/ComputeCommonSuperClass.java:83-94 | with class files missing a positive answer is still right, but for java/lang/Object |
| `Hierarchy.ComputeCommonSuperClass.constructor` | javaagent/src/main/java/io/halik/agent/transform/utils/ComputeCommonSuperClass.java:47-49 | the cache starts empty |
| `Hierarchy.ComputeCommonSuperClass.GetTypeInfo` | javaagent/src/main/java/io/halik/agent/transform/utils/ComputeCommonSuperClass.java:203-210 | the cache never changes an answer |
| `Hierarchy.ComputeCommonSuperClass.TypeAncestors` | javaagent/src/main/java/io/halik/agent/transform/utils/ComputeCommonSuperClass.java:150-163 | the loop terminates and gives the ancestor list, or fails when a class file is missing |
| `Hierarchy.ComputeCommonSuperClass.TypeImplements` | javaagent/src/main/java/io/halik/agent/transform/utils/ComputeCommonSuperClass.java:174-193 | the loops and the recursion terminate and give the answer of the interface search, or fail when a class file is missing |
| `Hierarchy.ComputeCommonSuperClass.TryComputeCommonSuperClass` | javaagent/src/main/java/io/halik/agent/transform/utils/ComputeCommonSuperClass.java:96-127 | finds the last common entry of the two ancestor lists, or uses the interface search when one type is an interface |
| `Hierarchy.ComputeCommonSuperClass.ComputeCommon` | javaagent/src/main/java/io/halik/agent/transform/utils/ComputeCommonSuperClass.java:88-94 | falls back to java/lang/Object when a class file is missing |
| `Hierarchy.ComputeCommonSuperClass.InstanceOf` | javaagent/src/main/java/io/halik/agent/transform/utils/ComputeCommonSuperClass.java:83-86 | answers as the predicate proved to be reachability does |
| `LineBuffer.ByteBufferOutput.Reserve` | javaagent/src/main/java/io/halik/agent/output/ByteBufferOutput.java:40-48 | afterwards the bytes fit exactly when they fit one buffer together with the unfinished line; finished lines and the unfinished line are kept |
| `LineBuffer.ByteBufferOutput.Write` | javaagent/src/main/java/io/halik/agent/output/ByteBufferOutput.java:50-60 | the bytes join the unfinished line, or nothing is written when both together exceed a buffer |
| `LineBuffer.ByteBufferOutput.WriteLineEnd` | javaagent/src/main/java/io/halik/agent/output/ByteBufferOutput.java:139-144 | the unfinished line with its comma and line feed becomes a finished one |
| `LineBuffer.ByteBufferOutput.Make` | javaagent/src/main/java/io/halik/agent/output/ByteBufferOutput.java:40-60 | one write of a sequence is made exactly when it fits a buffer with the unfinished line, and finishes a line only as a line end |
| `LineBuffer.ByteBufferOutput.Flush` | javaagent/src/main/java/io/halik/agent/output/ByteBufferOutput.java:146-149 | a last flush hands over every finished line and nothing of the unfinished one |
| `LineBuffer.ByteBufferOutput.FlushToEndOfLineAndTransferRestOverToNewBuffer` | javaagent/src/main/java/io/halik/agent/output/ByteBufferOutput.java:151-166 | the finished lines are handed over as one chunk and the rest moves to the new buffer |
| `LineBuffer.ByteBufferOutput.HandOver` | javaagent/src/main/java/io/halik/agent/output/JSONDirectBufferPacker.java:33-46 | the callback hands over what precedes the position and allocates a new buffer of the same size |
| `LineBuffer.ChunksAreLines` | javaagent/src/main/java/io/halik/agent/output/ByteBufferOutput.java:151-166 | chunks that are whole lines are, together, all the lines in order |
| `LineBuffer.Record` | javaagent/src/main/java/io/halik/agent/output/ByteBufferOutput.java:40-166 | for every sequence of writes: all are made if and only if each fits a buffer with its unfinished line, and otherwise those before the first that does not; after the last flush the output is exactly the lines finished by then |
| `LineBuffer.Conservation` | javaagent/src/main/java/io/halik/agent/output/ByteBufferOutput.java:40-166 | at any time the chunks handed over followed by the current buffer are everything written, in order |
| `Pairing.UnpairOfPair` | javaagent/src/main/java/io/halik/agent/capture/DumpingGround.java:33-39 | unpairing gives back both numbers |
| `Pairing.PairOfUnpair` | javaagent/src/main/java/io/halik/agent/capture/DumpingGround.java:33-39 | every natural number is the pair of what it unpairs to, so pairing is a bijection |
| `Pairing.PairingInjective` | javaagent/src/main/java/io/halik/agent/capture/DumpingGround.java:33-39 | different pairs have different numbers |
| `Pairing.FitsLong` | javaagent/src/main/java/io/halik/agent/capture/DumpingGround.java:33-39 | for non-negative 32-bit numbers no step leaves a signed 64-bit long |
| `Pairing.ShellExactly` | javaagent/src/main/java/io/halik/agent/capture/DumpingGround.java:37-39 | the pairs of numbers below m have exactly the numbers below the square of m |
| `DefinitionIndex.PutOverwrites` | javaagent/src/main/java/io/halik/agent/capture/track/variables/VariableDefinitionLookup.java:52-76 | putting a closed range keeps the ranges ordered and disjoint and replaces what it overlaps, splitting a range it falls into |
| `DefinitionIndex.MethodsNeverCollide` | javaagent/src/main/java/io/halik/agent/capture/track/variables/VariableDefinitionLookup.java:78-90 | looking up by paired number is looking up by class and method index |
| `DefinitionIndex.LatestExactly` | javaagent/src/main/java/io/halik/agent/capture/track/variables/VariableDefinitionLookup.java:67-90 | the log answers exactly when some tracked definition of the method and slot covers the label, and then with name, type, first label and slot of the last of these |
| `DefinitionIndex.FirstStartsThere` | javaagent/src/main/java/io/halik/agent/capture/track/variables/VariableDefinitionLookup.java:92-112 | of the remaining ranges whose definition starts at a label the lowest gives the answer, and there is none exactly when no definition starts there |
| `DefinitionIndex.InForceIsFirst` | javaagent/src/main/java/io/halik/agent/capture/track/variables/VariableDefinitionLookup.java:92-112 | a definition in force at the label where it starts is the first range of those starting there |
| `DefinitionIndex.VariableDefinitionLookup.TrackVariableDefinition` | javaagent/src/main/java/io/halik/agent/capture/track/variables/VariableDefinitionLookup.java:52-76 | the index goes on answering like the log of all definitions tracked |
| `DefinitionIndex.VariableDefinitionLookup.LookupVariableDefinition` | javaagent/src/main/java/io/halik/agent/capture/track/variables/VariableDefinitionLookup.java:78-90 | none exactly when no tracked definition of the method and slot covers the label, and otherwise name, type, first label and slot of the most recently tracked one that does |
| `DefinitionIndex.VariableDefinitionLookup.LookupVariableDefinitions` | javaagent/src/main/java/io/halik/agent/capture/track/variables/VariableDefinitionLookup.java:92-112 | for each slot a definition that starts at the label, among them every one in force there |
| `Documents.ParseOfFlatten` | javaagent/src/main/java/io/halik/agent/capture/write/JavaObjectsPacker.java:49-418 | a reader that relies on the declared sizes alone gets back every document, whatever follows it |
| `Documents.ParseIsSound` | javaagent/src/main/java/io/halik/agent/capture/write/JavaObjectsPacker.java:49-418 | and whatever it accepts is the flattening of a document with correct sizes |
| `ShallowView.EntryReads` | javaagent/src/main/java/io/halik/agent/capture/write/JavaObjectsPacker.java:141-418 | of every entry that packs the reader recovers the shallow view; what that is, value by value, StreamFormat.EntryFound says |
| `ShallowView.EntryWellFormed` | javaagent/src/main/java/io/halik/agent/capture/write/JavaObjectsPacker.java:141-418 | in every entry each map has as many keys as values and each level its declared size |
| `ShallowView.EntryRoundTrip` | javaagent/src/main/java/io/halik/agent/capture/write/JavaObjectsPacker.java:49-418 | from the tokens, whatever follows, the reader finds the end of the entry and recovers the shallow view of the value |
| `ShallowView.MapReads` | javaagent/src/main/java/io/halik/agent/capture/write/JavaObjectsPacker.java:332-395 | map entries are read back in order, a missing one as nil |
| `StreamFormat.ScalarReadsBack` | javaagent/src/main/java/io/halik/agent/capture/write/JavaObjectsPacker.java:192-213 | a primitive value, box or string that is not one of the three non-finite numbers is read back as it is, as a variable, as a field, as an element, as a key and as a value of a map |
| `StreamFormat.NonFiniteReadsAsText` | javaagent/src/main/java/io/halik/agent/capture/write/JavaObjectsPacker.java:200-213 | the three are read back there as the texts NaN, Infinity and -Infinity |
| `StreamFormat.ElementFound` | javaagent/src/main/java/io/halik/agent/capture/write/JavaObjectsPacker.java:49-59 | an element is found as nothing, as its value, as an array with its identity, or as an object with class, identity and text |
| `StreamFormat.MapEntryFound` | javaagent/src/main/java/io/halik/agent/capture/write/JavaObjectsPacker.java:373-392 | key and value of a map entry are found as the elements they are, and one whose getter throws as nothing |
| `StreamFormat.EntryFound` | javaagent/src/main/java/io/halik/agent/capture/write/JavaObjectsPacker.java:141-418 | every entry that packs is found under its name and its owner with its value: array elements one by one, collection and map elements if the entry has no name or the class name begins with clojure.lang, and unreadable ones as such |
| `StreamFormat.ViewsShow` | javaagent/src/main/java/io/halik/agent/output/JSONOutput.java:38-46 | and so does the merge show it |
| `StreamFormat.PrimitiveTokens` | javaagent/src/main/java/io/halik/agent/capture/write/JavaObjectsPacker.java:171-198 | a primitive value is written under the tag P, behind owner and name, in the token of the value itself |
| `StreamFormat.NullTokens` | javaagent/src/main/java/io/halik/agent/capture/write/JavaObjectsPacker.java:171-198 | null is written there as nil |
| `StreamFormat.ObjectTokens` | javaagent/src/main/java/io/halik/agent/capture/write/JavaObjectsPacker.java:141-169 | an object is written under the tag O with class and identity, and with its text if it has one |
| `StreamFormat.HolderTokens` | javaagent/src/main/java/io/halik/agent/capture/write/JavaObjectsPacker.java:215-418 | arrays, collections and maps are written under the tags A, C and M with their identity, and then with what they hold unless it is left out |
| `ObjectsPacker.JSONPacker.WriteArrayEnd` | javaagent/src/main/java/io/halik/agent/capture/write/JavaObjectsPacker.java:348-395 | where sizes are enforced an array that is not full is an error; elsewhere nil takes the place of what is missing |
| `ObjectsPacker.PackArrayElement` | javaagent/src/main/java/io/halik/agent/capture/write/JavaObjectsPacker.java:49-59 | writes null, a primitive, a reference to an array, or an object without its contents; never more than one level |
| `ObjectsPacker.PackArrayOfValuesOrRefs` | javaagent/src/main/java/io/halik/agent/capture/write/JavaObjectsPacker.java:61-135 | writes as many elements as declared, for primitive, string and object arrays |
| `ObjectsPacker.PackObject` | javaagent/src/main/java/io/halik/agent/capture/write/JavaObjectsPacker.java:141-169 | declares 3, 4 or 5 entries, one more with a text, and writes that many; throws exactly when the text throws |
| `ObjectsPacker.PackPrimitive` | javaagent/src/main/java/io/halik/agent/capture/write/JavaObjectsPacker.java:171-198 | declares 2, 3 or 4 entries and writes that many, the value as StreamFormat.PrimitiveTokens and ObjectsPacker.HandleFloatingTypeCornerCase say |
| `ObjectsPacker.HandleFloatingTypeCornerCase` | javaagent/src/main/java/io/halik/agent/capture/write/JavaObjectsPacker.java:200-213 | turns the three non-finite numbers into their texts and leaves everything else as it is |
| `ObjectsPacker.PackArrayRef` | javaagent/src/main/java/io/halik/agent/capture/write/JavaObjectsPacker.java:278-282 | writes tag and identity only |
| `ObjectsPacker.PackArray` | javaagent/src/main/java/io/halik/agent/capture/write/JavaObjectsPacker.java:284-314 | declares 3, 4 or 5 entries and writes that many, the elements included |
| `ObjectsPacker.PackCollectionValue` | javaagent/src/main/java/io/halik/agent/capture/write/JavaObjectsPacker.java:254-276 | writes nil when size() or iterator() throws; otherwise succeeds exactly when iterating yields the declared number of elements without throwing |
| `ObjectsPacker.PackCollection` | javaagent/src/main/java/io/halik/agent/capture/write/JavaObjectsPacker.java:215-252 | declares its entries by opening and by whether the class is Clojure's, and writes that many |
| `ObjectsPacker.PackMapEntry` | javaagent/src/main/java/io/halik/agent/capture/write/JavaObjectsPacker.java:373-392 | a key or value whose getter throws is written as nil |
| `ObjectsPacker.PackMapEntries` | javaagent/src/main/java/io/halik/agent/capture/write/JavaObjectsPacker.java:348-395 | writes nil when size() or iterator() throws; otherwise succeeds exactly when not more entries than declared are found |
| `ObjectsPacker.PackMapValue` | javaagent/src/main/java/io/halik/agent/capture/write/JavaObjectsPacker.java:332-346 | writes nil when there is no entry set |
| `ObjectsPacker.PackMap` | javaagent/src/main/java/io/halik/agent/capture/write/JavaObjectsPacker.java:316-418 | declares its entries by opening and by whether the class is Clojure's, and writes that many |
| `ObjectsPacker.PackEntry` | javaagent/src/main/java/io/halik/agent/capture/track/fields/Field.java:48-62 | dispatches on null, array, primitive, collection, map and object, and writes one complete document or throws, exactly when the client's code does or a size is wrong |
| `Recorder.InnerCallsAreSilent` | javaagent/src/main/java/io/halik/agent/capture/Flow.java:302-308 | any hooks reached while a line is captured, nested captures included, and any hooks after capture was given up, change neither step, trackers, depth nor streams |
| `Recorder.GuardRestored` | javaagent/src/main/java/io/halik/agent/capture/Flow.java:227-247 | the guard is back after every hook, on every path |
| `Recorder.LineCaptured` | javaagent/src/main/java/io/halik/agent/capture/Flow.java:227-282 | a captured line writes its flow record, then its snapshot if anything was collected, empties the trackers, advances the step, and ends all capture exactly when an exception was thrown |
| `Recorder.StreamsAreCaptures` | javaagent/src/main/java/io/halik/agent/capture/Flow.java:227-282 | over any run both streams are, in order, what the captured lines contributed, whole or torn, and the step counts them |
| `Recordings.CleanExactly` | javaagent/src/main/java/io/halik/agent/capture/Flow.java:249-282 | the finished lines of a stream are exactly its whole records if and only if no record was written after a torn one |
| `Recordings.OnlyTheLastIsTorn` | javaagent/src/main/java/io/halik/agent/capture/Flow.java:240-247 | unless an error is thrown only the last captured line can be incomplete, and it is exactly when capture has ended |
| `Recordings.RecordsAreAtomic` | javaagent/src/main/java/io/halik/agent/capture/Flow.java:227-282 | in every run without errors, exceptions midway included, both streams hold whole records only |
| `Recordings.AtomicExactly` | javaagent/src/main/java/io/halik/agent/capture/Flow.java:227-247 | in every run at all, exactly when nothing was written behind a torn record; on the calls themselves: Recordings.AtomicUnlessErrorIsContinued |
| `Recordings.AtomicUnlessErrorIsContinued` | javaagent/src/main/java/io/halik/agent/capture/Flow.java:227-247 | in every run a stream holds whole records only, if and only if there is no line at which an error is thrown part way through its record, before a later line that writes its own whole |
| `Recordings.OnlyErrorsContinue` | javaagent/src/main/java/io/halik/agent/capture/Flow.java:240-247 | only behind a record torn by an error, never behind one torn by an exception, is another one written |
| `Recordings.NthCaptureIsNthLine` | javaagent/src/main/java/io/halik/agent/capture/FlowPerThread.java:135-137 | the n-th record belongs to the n-th line captured, in the state its predecessors leave |
| `Recordings.NoLineLeftOut` | javaagent/src/main/java/io/halik/agent/capture/Flow.java:227-239 | every line executed is captured until capture is given up |
| `Recordings.CapturedInOrder` | javaagent/src/main/java/io/halik/agent/capture/FlowPerThread.java:135-137 | captures are in the order of execution |
| `Recordings.SnapshotStepsIncrease` | javaagent/src/main/java/io/halik/agent/capture/Flow.java:249-263 | snapshot steps increase strictly and each names a captured line |
| `Trackers.ReferencesExactly` | javaagent/src/main/java/io/halik/agent/capture/track/ArrayModificationTracker.java:30-57 | in every run an array, collection or map is held exactly when it was modified since the last line, and once |
| `Trackers.ArrayReportedOnce` | javaagent/src/main/java/io/halik/agent/capture/track/ArrayModificationTracker.java:30-57 | the next captured line reports each of them once and no other |
| `Trackers.VariablesExactly` | javaagent/src/main/java/io/halik/agent/capture/track/variables/VariableModificationTracker.java:31-70 | a slot is held exactly with the last value set since the last line or method exit |
| `Trackers.VariableReportedExactly` | javaagent/src/main/java/io/halik/agent/capture/track/variables/VariableModificationTracker.java:40-62 | a variable is reported exactly when a slot holds its value and some tracked definition of the slot is in scope at the label of the line, and then with name, type, first label and slot of the last of these |
| `Trackers.SkippedExactly` | javaagent/src/main/java/io/halik/agent/capture/DumpingGround.java:22-31 | collections whose class name starts with org.hibernate are the only values the trackers of variables and fields leave out |
| `Trackers.EqualFieldsExactly` | javaagent/src/main/java/io/halik/agent/capture/track/fields/Field.java:70-81 | before the first line a second assignment is dropped exactly when it is to the field of the same name of the same object and assigns the same object or box, not null |
| `Trackers.FieldsExactly` | javaagent/src/main/java/io/halik/agent/capture/track/fields/FieldModificationTracker.java:32-47 | after the first line every field assignment since the last line is held; before it, equal ones once |
| `Trackers.TagsExactly` | javaagent/src/main/java/io/halik/agent/capture/TagTracker.java:22-32 | in every run the record of the next line carries the last tag given since the line before, if any |
| `Trackers.DepthFollows` | javaagent/src/main/java/io/halik/agent/capture/FlowPerThread.java:155-170 | once known, the depth follows entries and exits and is back when every method entered has been left |
| `Trackers.DefinitionsFollow` | javaagent/src/main/java/io/halik/agent/capture/Flow.java:331-336 | the definitions known are those made outside line captures, in order |
| `Replay.FlowDocReads` | javaagent/src/main/java/io/halik/agent/capture/Flow.java:265-282 | a flow record is read back with time, tag, class, method, line and depth |
| `Replay.SnapshotReads` | javaagent/src/main/java/io/halik/agent/capture/Flow.java:249-263 | a snapshot is read back with its step and the view of every entry, and declares as many as it holds |
| `Replay.ToJSON` | javaagent/src/main/java/io/halik/agent/output/JSONOutput.java:38-46 | puts the entries of each snapshot into the flow record its step names |
| `Replay.JoinedExactly` | javaagent/src/main/java/io/halik/agent/output/JSONOutput.java:38-46 | the entries joined to a step are those of the last snapshot of that step, and there are none exactly when it has none |
| `Replay.MergeIsExact` | javaagent/src/main/java/io/halik/agent/output/JSONOutput.java:38-46 | joining the two streams gives each captured line exactly what was collected there, and nothing where nothing was; the flow stream holds a record for every captured line, but for the last when its own record was torn |
| `StreamFormat.FlowTokens` | javaagent/src/main/java/io/halik/agent/capture/Flow.java:265-282 | a flow record is written as time, tag if any, class, method, line and depth, each under its key |
| `StreamFormat.SnapshotTokens` | javaagent/src/main/java/io/halik/agent/capture/Flow.java:249-263 | a snapshot is written as its step and as many entries as there are variables, arrays, collections, maps and fields |
| `StreamFormat.EntriesExactly` | javaagent/src/main/java/io/halik/agent/capture/Collector.java:82-119 | the entries are the variables by name, the arrays, collections and maps, and the fields by owner and name, in this order; the integers of boolean variables are truths, those of character variables letters |
| `StreamFormat.PacksExactly` | javaagent/src/main/java/io/halik/agent/capture/Collector.java:82-119 | a snapshot is packed exactly when no boolean or character variable holds null, nothing but arrays, collections and maps was reported as one, and every value packs |
| `StreamFormat.ExpectedIsCaptured` | javaagent/src/main/java/io/halik/agent/capture/Flow.java:227-282 | the n-th merged line is the n-th line captured: its record names what the hook was given with the depth and the tag of that moment, and it has entries exactly when something was collected and all of it packed |
| `Replay.RecordingReplays` | javaagent/src/main/java/io/halik/agent/output/JSONOutput.java:38-46 | main theorem: every run without errors replays from its two streams to the lines executed and what they collected; when capture was given up, exactly the lines up to that one are there, it included unless its flow record itself was torn |
| `Replay.ErrorTearsALine` | javaagent/src/main/java/io/halik/agent/capture/Flow.java:240-247 | an error thrown by an object where its text is due passes both handlers, capture goes on, and the next snapshot stands where the text would: the two make one line, token for token |
| `Replay.TextFollows` | javaagent/src/main/java/io/halik/agent/capture/write/JavaObjectsPacker.java:154-169 | what precedes the error is the beginning of the snapshot that would have been written had the object given a text |
| `Replay.LogOfOps` | javaagent/src/main/java/io/halik/agent/output/JSONDirectBufferPacker.java:48-50 | tokens and line ends written through the buffer are lines of bytes in the same order |
| `Replay.SaveStream` | javaagent/src/main/java/io/halik/agent/output/JSONDirectBufferPacker.java:27-50 | a stream through its buffers of 1048576 bytes into its file: exactly the records finished before the first write that does not fit its line into a buffer, or all of them |
| `Replay.SaveRun` | javaagent/src/main/java/io/halik/agent/capture/FlowPerThread.java:204-207 | what the last flush leaves in both files is the whole records of the run, each on its line, in order: all of them if and only if nothing outgrows a buffer, also when packing failed part way |
| `FlowCapture.ReferenceModificationTracker.TrackModification` | javaagent/src/main/java/io/halik/agent/capture/track/ArrayModificationTracker.java:32-34 | adds the reference once |
| `FlowCapture.ReferenceModificationTracker.Collect` | javaagent/src/main/java/io/halik/agent/capture/track/ArrayModificationTracker.java:36-40 | gives what was held and starts with an empty set |
| `FlowCapture.VariableModificationTracker.TrackVariableModification` | javaagent/src/main/java/io/halik/agent/capture/track/variables/VariableModificationTracker.java:33-38 | replaces the value of the slot, Hibernate collections excepted |
| `FlowCapture.VariableModificationTracker.Collect` | javaagent/src/main/java/io/halik/agent/capture/track/variables/VariableModificationTracker.java:40-62 | resolves every slot by the log of definitions, drops the unresolved and starts afresh |
| `FlowCapture.VariableModificationTracker.DumpAll` | javaagent/src/main/java/io/halik/agent/capture/track/variables/VariableModificationTracker.java:68-70 | forgets everything |
| `FlowCapture.FieldModificationTracker.TrackFieldAssignment` | javaagent/src/main/java/io/halik/agent/capture/track/fields/FieldModificationTracker.java:35-41 | adds the field unless the first set holds an equal one, Hibernate collections excepted |
| `FlowCapture.FieldModificationTracker.Collect` | javaagent/src/main/java/io/halik/agent/capture/track/fields/FieldModificationTracker.java:43-47 | gives what was held and compares by reference from then on |
| `FlowCapture.TagTracker.ConsumeTag` | javaagent/src/main/java/io/halik/agent/capture/TagTracker.java:28-32 | gives the tag once |
| `FlowCapture.FlowPerThread.Increase` | javaagent/src/main/java/io/halik/agent/capture/FlowPerThread.java:155-161 | fetches the depth when it is -1 and counts otherwise |
| `FlowCapture.FlowPerThread.CollectObjects` | javaagent/src/main/java/io/halik/agent/capture/Collector.java:122-131 | collects from every tracker and empties it |
| `FlowCapture.Consume` | javaagent/src/main/java/io/halik/agent/capture/Collector.java:82-119 | writes variables, arrays, collections, maps and fields, as many as counted, or throws exactly when one of them does |
| `FlowCapture.PackVariables` | javaagent/src/main/java/io/halik/agent/capture/track/variables/Variable.java:37-53 | converts booleans and characters by type and packs each variable, or throws exactly when a conversion or an entry does |
| `FlowCapture.ConvertByDescriptor` | javaagent/src/main/java/io/halik/agent/capture/track/variables/SimpleVariableDefinition.java:34-47 | an int of a boolean variable is true exactly for 1, one of a character variable its low 16 bits; any other value of such a variable reads as null, null itself throws |
| `FlowCapture.ShouldBeSkippedByCapture` | javaagent/src/main/java/io/halik/agent/capture/DumpingGround.java:22-31 | holds exactly of collections whose class name starts with org.hibernate |
| `FlowCapture.PackFlowRecord` | javaagent/src/main/java/io/halik/agent/capture/Flow.java:265-282 | writes one whole flow record and its line end |
| `FlowCapture.PackSnapshotRecord` | javaagent/src/main/java/io/halik/agent/capture/Flow.java:249-263 | writes one whole snapshot and its line end, or a part of it when packing throws |
| `FlowCapture.Flow.CaptureLineExecution` | javaagent/src/main/java/io/halik/agent/capture/Flow.java:227-247 | does to the objects what the state machine does to the state, around client code that calls back; throws only while packing a snapshot, exactly when an entry does not pack |
| `FlowCapture.Flow.CaptureWithinGuard` | javaagent/src/main/java/io/halik/agent/capture/Flow.java:231-239 | step, flow record, collection and snapshot in this order; an exception ends all capture |
| `FlowCapture.Flow.PerformInner` | javaagent/src/main/java/io/halik/agent/capture/Flow.java:302-308 | hooks called by client code during a capture leave every object as it was |
| `FlowCapture.Flow.CaptureArrayModification` | javaagent/src/main/java/io/halik/agent/capture/Flow.java:380-385 | tracks the array unless capture is off, as the state machine does |
| `FlowCapture.Flow.CaptureVariableModification` | javaagent/src/main/java/io/halik/agent/capture/Flow.java:345-350 | tracks the variable unless capture is off, as the state machine does |
| `FlowCapture.Flow.CaptureFieldModification` | javaagent/src/main/java/io/halik/agent/capture/Flow.java:401-406 | tracks the field unless capture is off, as the state machine does |
| `FlowCapture.Flow.CaptureVariableDefinition` | javaagent/src/main/java/io/halik/agent/capture/Flow.java:331-336 | adds the definition unless capture is off or its range is empty, as the state machine does |
| `FlowCapture.Flow.DumpLeftoverVariableStateAtMethodExit` | javaagent/src/main/java/io/halik/agent/capture/Flow.java:323-329 | forgets the variables unless capture is off, as the state machine does |
| `RecordAndReplay.RecordThenMerge` | javaagent/src/main/java/io/halik/agent/capture/Flow.java:123-143 | end to end: for any sequence of hooks performed on a new flow, merging its two streams gives exactly the lines executed with what each collected, the line at which capture was given up included; and a line gives it up exactly when something it collected does not pack |
| `RecordAndReplay.RecordAll` | javaagent/src/main/java/io/halik/agent/capture/FlowFacade.java:104-151 | the hooks performed one after another leave the objects in the state the state machine reaches; nothing but packing a snapshot throws |
| `RecordAndReplay.Execute` | javaagent/src/main/java/io/halik/agent/capture/FlowFacade.java:104-151 | each hook does one step of the state machine, and a captured line throws exactly when something it collected does not pack |
| `Composition.RecordingTellsTheRun` | javaagent/src/main/java/io/halik/agent/capture/FlowFacade.java:104-151 | main theorem, the whole way: for every method, every combination of visitors that observes arrays, and every run of any length, the rewritten method arrives where the original does with a trace, and the recorder fed with this trace writes two streams whose merge is the lines the original entered, in order, up to and with the first at which the recorder gives up; each line shows, in the heap of that line, exactly the arrays, collections and maps modified since the line before, once each, the last value of each variable in scope and the fields assigned; the flow stream has a record for every line but a last one whose own record was torn |
| `Composition.RecordingTells` | javaagent/src/main/java/io/halik/agent/capture/Flow.java:227-282 | for every trace: the merged lines are exactly the lines of the trace, up to and with the first at which the recorder gives up, each with its time and exactly what was modified since the line before |
| `Composition.CollectedTold` | javaagent/src/main/java/io/halik/agent/capture/Collector.java:122-131 | at any time the trackers hold exactly what was told since the last line: arrays, collections and maps once each, of each slot the last value, the fields in order, before the first line up to equality |
| `Composition.TellStory` | javaagent/src/main/java/io/halik/agent/capture/FlowFacade.java:104-151 | depth changes do not alter what a trace tells |
| `Composition.RecordingTellsTheThread` | javaagent/src/main/java/io/halik/agent/capture/FlowFacade.java:104-151 | main theorem, the whole way for a whole program: its rewritten thread arrives where the original thread does, and the recording of its interleaved trace replays to what all the activations of the original did |
| `Composition.RecordingTellsTheStory` | javaagent/src/main/java/io/halik/agent/output/JSONOutput.java:38-46 | every trace replays from its two streams to its story |
| `Composition.OnceExactly` | javaagent/src/main/java/io/halik/agent/capture/track/ArrayModificationTracker.java:30-57 | each array, collection or map told is collected once, and no other |
| `Composition.LastValuesExactly` | javaagent/src/main/java/io/halik/agent/capture/track/variables/VariableModificationTracker.java:31-70 | a slot is collected with a value exactly when no later value was told for it, Hibernate collections aside, and once |
| `Composition.OnceEqualExactly` | javaagent/src/main/java/io/halik/agent/capture/track/fields/FieldModificationTracker.java:32-47 | of the fields told before the first line each is collected, itself or as an equal one, nothing else is, and no two are equal |
| `Telling.SinceExactly` | javaagent/src/main/java/io/halik/agent/capture/Collector.java:122-131 | what a trace tells since its last line are the arrays, collections, maps and fields of the events behind that line, in their order |
| `Telling.LineTells` | javaagent/src/main/java/io/halik/agent/capture/Flow.java:227-239 | a line tells what the events between it and the line before modified, and nothing else |
| `Telling.VariablesSince` | javaagent/src/main/java/io/halik/agent/capture/track/variables/VariableModificationTracker.java:40-70 | of the variables those of the events behind the last line or method exit are told |
| `Telling.FieldsCollected` | javaagent/src/main/java/io/halik/agent/capture/track/fields/FieldModificationTracker.java:35-47 | behind the first line every field assignment is collected, in order, with the identity of its object, its name and its value, except those of collections of Hibernate |
| `Telling.CollectedExactly` | javaagent/src/main/java/io/halik/agent/capture/Collector.java:122-131 | a line collects an array, collection or map exactly when it was told, and a variable exactly when its value is the last one told for a slot that a tracked definition in scope covers, under the name and type of the last of these |
| `Arguments.SplitOfJoin` | javaagent/src/main/java/io/halik/agent/AgentMain.java:95-100 | splitting a joined list gives it back exactly when it has one element or does not end with an empty string |
| `Arguments.ParseArguments` | javaagent/src/main/java/io/halik/agent/AgentMain.java:102-118 | splits at commas and each pair at its first colon, a later key replacing an earlier one |
| `Arguments.FiltersExactly` | javaagent/src/main/java/io/halik/agent/AgentMain.java:95-100 | the patterns come back, an empty list as empty, if and only if the list does not end with the pattern `.*` or an empty one |
| `Arguments.ArgumentsRoundTrip` | intellij-plugin/src/main/java/io/halik/intellij/runner/RunConfigurationExtension.java:113-124 | what the plugin prints for any configuration free of the separators the agent parses to the same options, values with colons included, and to as many patterns, in order, under the condition above; which these are, Arguments.PatternsReachTheAgent says |
| `Arguments.PatternsReachTheAgent` | intellij-plugin/src/main/java/io/halik/intellij/runner/RunConfigurationExtension.java:71-91 | for every pattern that ends in `.*` the agent gets what precedes it, for every other the whole pattern, with slashes for dots, in order, whenever the list does not end with the pattern `.*` or an empty one |
| `Arguments.PrintedExactly` | intellij-plugin/src/main/java/io/halik/intellij/runner/RunConfigurationExtension.java:113-124 | the plugin prints six pairs with commas between them, the patterns joined by bars |
| `Arguments.SplitExactly` | javaagent/src/main/java/io/halik/agent/AgentMain.java:95-118 | splitting keeps all pieces but the empty ones at the end, none holds the separator, and they join to the string again |
| `Arguments.LastPairCounts` | javaagent/src/main/java/io/halik/agent/AgentMain.java:102-118 | a key stands for what follows the first colon of the last pair with this key, or for nothing if that pair has no colon |
| `Arguments.OptionsExactly` | javaagent/src/main/java/io/halik/agent/AgentMain.java:43-71 | a flag is on exactly when its key has a value that says true in any case of letters, a list is what its value splits into, and a key without a value counts as missing |
| `ClassIndex.CaptureFlowAndStateClassTransformer.Transform` | javaagent/src/main/java/io/halik/agent/transform/classTransformers/CaptureFlowAndStateClassTransformer.java:66-92 | a class is visited with the next index, and the index advances together with the list of names; a class that is replaced stands at its index |
| `ClassIndex.TransformAll` | javaagent/src/main/java/io/halik/agent/transform/classTransformers/CaptureFlowAndStateClassTransformer.java:52-93 | over any sequence of transformations, failed ones included, the next index is the number of names appended |
| `ClassIndex.ClassIndexRoundTrip` | intellij-plugin/src/main/java/io/halik/intellij/server/api/FlowAPI_V2.java:48-71 | the server reads back every name at its index if and only if no name holds a quote or a backslash |
| `QuickSort.ScanUp` | demo/src/main/java/io/halik/quicksort/QuickSort.java:13-14 | the unguarded scan stops at or before an element that is not smaller than the pivot |
| `QuickSort.ScanDown` | demo/src/main/java/io/halik/quicksort/QuickSort.java:15-16 | likewise downwards |
| `QuickSort.Pass` | demo/src/main/java/io/halik/quicksort/QuickSort.java:12-24 | one pass of the outer loop keeps the split and the permutation and leaves sentinels for the next |
| `QuickSort.Partition` | demo/src/main/java/io/halik/quicksort/QuickSort.java:7-27 | reading the pivot throws exactly when the segment is empty or its bounds add up to 2^31 or more, and then nothing has changed; otherwise the segment is permuted and split at the returned index, with left < index <= right for segments of two or more; nothing outside changes |
| `QuickSort.Sort` | demo/src/main/java/io/halik/quicksort/QuickSort.java:29-35 | for every segment: terminates with the segment permuted and nothing outside changed, and sorted unless reading a pivot threw; nothing is thrown when the bounds add up to less than 2^31 and the segment ends at 2^30 at the latest |
| `QuickSort.SortArray` | demo/src/main/java/io/halik/quicksort/Arrays2.java:20-24 | an array of any length keeps its elements and ends sorted unless reading a pivot threw: never for 1 to 2^30 + 1 elements, always for the empty array |
| `QuickSort.MiddleExactly` | demo/src/main/java/io/halik/quicksort/QuickSort.java:10 | the 32-bit pivot index lies in the segment if and only if the sum of the bounds does not overflow |
| `NeuronNetwork.Fire` | demo/src/main/java/io/halik/xor_simulation/Neuron.java:44-61 | firing any acyclic network with shared inputs terminates, returns the evaluated output and leaves every neuron reached with the flag of the recursive evaluation |
| `NeuronNetwork.FireInputs` | demo/src/main/java/io/halik/xor_simulation/Neuron.java:46-54 | adds up the weights of the inputs that fire |
| `NeuronNetwork.FiresAbove` | demo/src/main/java/io/halik/xor_simulation/Neuron.java:44-61 | a neuron fires exactly when what its firing inputs weigh together is more than its threshold |
| `NeuronNetwork.NetworkDecides` | demo/src/main/java/io/halik/xor_simulation/XOR_NeuralNetwork_Example.java:14-33 | the example network evaluates to fired exactly when one input is true, or there is none |
| `NeuronNetwork.Build` | demo/src/main/java/io/halik/xor_simulation/XOR_NeuralNetwork_Example.java:15-28 | builds the network for an argument list of any length |
| `NeuronNetwork.ParsesTrue` | demo/src/main/java/io/halik/xor_simulation/XOR_NeuralNetwork_Example.java:15-28 | an argument counts as true exactly when it is the word true in any case of letters |
| `NeuronNetwork.Xor` | demo/src/main/java/io/halik/xor_simulation/XOR_NeuralNetwork_Example.java:14-33 | the program's answer is true exactly when precisely one argument is true, or there is none |

## Left out

- Visitors.CaptureVariableAssignmentMethodVisitor.VisitStoreInsn: does not model the label sets by which tracking is disabled inside JSR subroutines; there is no JSR instruction here, so these sets stay empty.
- Visitors.CaptureVariableAssignmentMethodVisitor.VisitJumpInsn: does not model the JSR branch, for the same reason; compilers no longer emit that jump.
- The Kotlin filter, the JUnit tag visitor and the rewriting of reflective field access.
- Stack-map frames, maximum sizes and the verifier's treatment of `uninitializedThis`; bodies are executed, not verified.
- Methods that are not instrumented: a call of one is an arbitrary deterministic function of its operands and the heap, so calls back from it into instrumented methods are not steps of the thread. Hooks neither change the heap nor throw.
- Threads: every statement is about one thread or a sequential run; `allCaptureDisabled` is shared by all threads in the source.
- The order in which hash sets and maps are iterated: pending slots in ascending order, trackers in order of insertion.
- Trackers.DepthFollows: keeps to runs without re-synchronisation at catch handlers, whose result depends on raw stack traces.
- Trace.DepthBalanced: keeps to runs without exceptions, for the same reason, and so does ProgramTraces.DepthIsHeight.
- QuickSort.Sort: for segments that end beyond 2^30 it does not say for which contents the recursion reaches an overflowing pivot index; that depends on where the partitions fall.
- Hierarchy.InstanceOfExactly: for hierarchies whose class files can all be read; Hierarchy.InstanceOfSound says what remains otherwise.
- Arguments.ArgumentsRoundTrip: starts from the printed string; how a command line treats quotes and spaces is not part of this model.
- FlowCapture.Flow.CaptureLineExecution: the objects are modelled for exceptions; errors, and overflow of the output buffer as a reason to throw, are covered by the state machine, where a line may throw after any tokens.
- IOExceptions that the message pack writer swallows; packing a raw float array that holds not-a-number or an infinity is the only case known to raise one, and the type of what the JSON packer takes (Documents.JsonScalar) holds finite numbers only.
- The bytes JSON uses for a token: they are an arbitrary function of the token and its line so far.
- Writes to a buffer after its last flush, which go to a discarded buffer.
- RecordedDepth.RecordedDepthIsHeight: keeps to runs without exceptions, as Trace.DepthBalanced does.
- Composition.RecordingTellsTheRun: class and method indices are below 2^15, since larger ones are negative in the trace (Trace.LineNumbersExactly), and errors thrown while packing are left to Recordings.AtomicUnlessErrorIsContinued. The same holds of Composition.RecordingTellsTheThread.
- Recordings.AtomicExactly: does not model which tokens the JSON packer refuses behind a torn record; a record it refuses is a line at which something is thrown.
- What a hook learns besides its arguments (the values behind references, the time, the depth, the heap at a line, client code during packing) is a parameter of Composition.
- The depth fetched from a stack trace, timestamps and heap contents are inputs.
- Rounding of the float weights in the neuron network: they are reals.
- Verbosity levels, include and exclude prefixes, and thread names.
- Files, channels, executors, shutdown hooks, notification by HTTP, the IntelliJ user interface, the server's routes and the web client.
