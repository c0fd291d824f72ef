# Owl: a verified model of the compiler, the virtual machine and its lists

Owl is a small functional language. Its compiler (Rust) turns a syntax tree into
byte code; its virtual machine (C) loads the bytes, interns names, and interprets
them with a stack of register frames, a copying garbage collector and a persistent
list type. This project models the parts of Owl that are hard to get right and
proves what they promise. `dafny verify dfyconfig.toml` checks all of it.

The files, from the bottom up:

- `Seqs` sequences, sums and slices.
- `Nodes`, `Edges`, `ConcatPlan`, `TreeConcat`, `Shifts`, `Paths`, `RightEdge`,
  `Vectors`, `Lookup`, `Slice`, `ListRuns`, `ListFaults`: the persistent list, a
  32-way tree whose inner nodes are radix indexed or carry a size table, with a
  separate tail. There are three strengths of invariant. *Indexable*: every element
  can be looked up, but the last entry of a size table may overstate. *Exact*: tables
  are exact, and a node without a table is filled as its place demands
  (`Edges.Sound`): off the right edge it is full, on the right edge its leaves are,
  and only at the left edge may there be a one-child chain above a short leaf.
  *Strong*: there is no such chain, and a list with a root has more than 32 elements.
  Pushes and concats keep the strong form, and all operations the exact one.
- `ListHistory`, `CutLists`: what is known of a list from how it was made. Literals
  and what concat makes of them are whole (strong); a slice may be *cut*.
- `Heap`, `TermEq`, `GcModel`, `GcOrder`, `Gc`, `GcMeaning`: tagged words, the values
  they stand for, term equality, and the collector as a class over memory, forwarding
  addresses and registers. A rank that falls along every reference expresses that
  the heap has no cycles.
- `Bytecode`, `Loader`, `Decode`: instructions, their bytes and sizes, the scanner
  that loads them, and reading them back.
- `Vm`, `Cells`, `CellSteps`, `Interpreter`: one step of the machine as a function over
  values, where lists are sequences, and its frame discipline; one step over cells, where
  lists are the real trees; and the byte-by-byte interpreter as a class, proved to do the
  steps over cells. The two steps differ at one place only: over cells there is none at a
  concat that would break the lists held there.
- `Ast`, `Codegen`, `FnGenerator`, `Scopes`, `Jumps`, `Operands`, `Limits`: the code
  generator as functions and as the class of linked generators it really is, what it does
  to scopes and upvalues, where its jumps lead, where it looks for operands, and for which
  programs it gives code.
- `Semantics`, `Sliceless`, `Relation`, `Fragment`, `Frames`, `Simulation`, `Pipeline`,
  `EndToEnd`: what programs of several modules mean, which machine values stand for which
  source values, and the proof that compiled code computes the meaning, up to the
  interpreter with its real lists. Programs and machines may be *checked*: then a concat
  that may be unsafe has no result; without slices no concat is. `Example` takes one
  program all the way, `Upvalues` shows one outside the theorem that goes wrong, and
  `CutConcat` one that stops at a concat.
- `ClosedRuns`, `ClosedPrograms`: programs of constants, list literals and operators, for
  which evaluation on the real lists tells exactly how the interpreter ends.

What the proofs found in the code:

- `push_down_tail` takes any list of at most 32 elements to have no tree
  (`vm/src/std/owl_list.c:633`). After slices such a list can have one, and a concat
  with a rooted list then loses it: `Vectors.Concat` says exactly when. Two list
  literals, a concat, a slice and another concat are enough (`ListFaults.LiteralsRun`): a
  program that means 30 comes to such a concat, and the list operations carried on with
  give 40 (`CutConcat.SourceAndListsDiffer`). A run is right if and only if it comes to no
  concat whose two lists, as they are held there, fail `Vectors.ConcatSafe`
  (`EndToEnd.RunProgram`). A program is sure to be safe from this when every left
  operand of `++` is empty, is no slice nor made from one, or has more than 32 elements
  like the right one, or the right one is empty (`ListHistory.JoinSafe`,
  `Semantics.JoinsAndSlices`); programs without slices always are.
- Slices can leave a one-child node without a table above a short leaf
  (`vm/src/std/owl_list.c:1181-1190`); the next pushed leaf then makes an element
  absent: `Lookup.PushLookups` says exactly when, and `ListFaults.UnsafePushRun` gets
  there with 1057 pushes and two slices.
- The collector does not look at tags first: an integer is replaced when its value is
  the address of an object that is forwarded already. `Gc.Collector.GcCollect` says
  exactly which integers in registers and in objects are, and `Gc.IntegerTaken` and
  `Gc.IntegerInTuple` show one each.
- The test for the heap covers as many bytes as both spaces together have
  (`vm/src/alloc.c:20`), so when the upper space is emptied, objects just behind the
  heap are moved too (`Gc.BehindTheHeap`).
- A capture is counted as 4 bytes and loaded as 3, so jumps over captures go astray
  (`Loader.ByteSizeIsLoadedSize`, `Loader.ByteSizeOfIsLoadedSize`).
- Integer constants are written in base 250 and read in base 256, so they survive
  exactly below 250 (`Bytecode.StoreIntSurvives`).
- An `if` or `let` inside an operand keeps a register, and operands are then read from
  the wrong registers (`Operands.OperandsFoundIff`, `Operands.IfAsOperand`).
- `op_return` does not restore the current function: behind a call the upvalues are
  those of the function entered last, wherever that was (`Vm.UpvaluesAfterCall`). A
  compiled program that reads an upvalue behind a call goes wrong
  (`Upvalues.UpvalueGone`).

Where a comment or the documentation of the repository says otherwise, the model
follows the code.

## Model

| member | source | states |
|---|---|---|
| Nodes.SizeSubTrieIsSize | vm/src/std/owl_list.c:570-592 | The size computed from tables and radix layout is the number of elements below the node. |
| Nodes.SetSizes | vm/src/std/owl_list.c:557-568 | The node gets an exact cumulative table and keeps children and elements. |
| Nodes.FindHeightIsHeight | vm/src/std/owl_list.c:547-555 | The height read off the leftmost path is the height of the whole tree. |
| ConcatPlan.CreateConcatPlan | vm/src/std/owl_list.c:405-445 | On the array: the planned counts add up to the children's slots, lie between 1 and 32, and number at most the optimum plus two unless nothing changes; no access is out of bounds and the loop ends. |
| ConcatPlan.SkipFull | vm/src/std/owl_list.c:421-424 | The skip over full counts stops inside the array at a count that is not full, because not all counts can be full. |
| ConcatPlan.Redistribute | vm/src/std/owl_list.c:426-433 | Spreading one count over its successors conserves the total, leaves all counts before full, and stops before the end. |
| ConcatPlan.ShuffleUp | vm/src/std/owl_list.c:435-439 | Removing the emptied count moves the rest down by one and changes nothing else. |
| ConcatPlan.Regroup | vm/src/std/owl_list.c:447-544 | Executing a plan reads every old slot once, in order, never past the last node, and yields groups of exactly the planned sizes; a node is taken over as first or last only if it was. |
| ConcatPlan.FillNode | vm/src/std/owl_list.c:463-489 | One new node takes the next slots in order across old nodes and leaves the reading position where the next one starts. |
| TreeConcat.ExecuteConcatPlan | vm/src/std/owl_list.c:447-544 | The new nodes have the planned sizes, are sound at their new places, and hold the same elements in the same order, for leaves and inner nodes. |
| TreeConcat.Rebalance | vm/src/std/owl_list.c:371-396 | Merging left, centre and right keeps the elements in order and gives at most two sound children below the top. |
| TreeConcat.ConcatSubTree | vm/src/std/owl_list.c:192-247 | For any two heights, the result holds the left elements and then the right ones and is a sound candidate root of the right height; nothing but the shape is asked of the right edge of the left tree. |
| RightEdge.CountCopyable | vm/src/std/owl_list.c:636-719 | The walk down the right edge finds how deep the last node with room is, and how many inner nodes there are. |
| RightEdge.SoundSteered | vm/src/std/owl_list.c:636-719 | In every sound tree whose elements and tail are more than a leaf holds, the last index of any tail leads that walk right. |
| RightEdge.CopyFirstK | vm/src/std/owl_list.c:762-811 | The copied path, once the missing chain is plugged in, is the tree with the leaf inserted at the deepest node with room. |
| RightEdge.AppendEmpty | vm/src/std/owl_list.c:813-830 | The chain of one-child nodes above the new leaf. |
| RightEdge.AppendLeafAppends | vm/src/std/owl_list.c:629-756 | Whichever case is taken, the tree's elements are the old ones followed by the leaf's. |
| RightEdge.AppendLeafWf | vm/src/std/owl_list.c:629-756 | Appending to an accepting tree keeps it searchable, and its tables exact. |
| RightEdge.AppendLeafSound | vm/src/std/owl_list.c:629-756 | Appending a full leaf to an accepting sound tree keeps it sound. |
| RightEdge.AppendLeafShape | vm/src/std/owl_list.c:629-756 | Appending any leaf to any sound tree leaves the shape that concat needs. |
| RightEdge.AppendLeafIff | vm/src/std/owl_list.c:629-756 | The tree keeps the invariant of searchable trees if and only if it accepts the leaf. |
| Lookup.AppendLeafLoses | vm/src/std/owl_list.c:629-756 | Where a sound tree does not accept, the first element of the leaf becomes absent. |
| RightEdge.SoundRootAccepts | vm/src/std/owl_list.c:629-756 | A sound tree without a short leaf always accepts another one. |
| Vectors.PushDownTail | vm/src/std/owl_list.c:629-756 | Up to 32 elements the old tail becomes the root; above, it is appended to the tree. |
| Vectors.Push | vm/src/std/owl_list.c:614-627 | Contents grow by the element at the end, for every list; the invariants are kept if and only if the list was safe to push to; the strong form always is. |
| Lookup.PushLookups | vm/src/std/owl_list.c:614-627 | After a push to a list with the invariant, every lookup agrees with the contents if and only if the list was safe to push to. |
| Vectors.Concat | vm/src/std/owl_list.c:118-190 | For all lists with the invariant, slices included, the result holds left and then right if and only if the left operand is not a rooted list of at most 32 elements meeting a rooted right one, and says what it holds then; the invariant is kept if and only if, besides, a full leaf is only hung below a left tree that accepts it. |
| Lookup.ConcatLookups | vm/src/std/owl_list.c:118-190 | After a concat every lookup agrees with the left list followed by the right one if and only if the two were safe to concat. |
| TreeConcat.SameLeaves | vm/src/std/owl_list.c:447-544 | Regrouping leaves by their own lengths leaves them as they are. |
| Vectors.StrongConcatSafe | vm/src/std/owl_list.c:118-190 | Strong operands are always safe to concat. |
| Lookup.SizedPos | vm/src/std/owl_list.c:832-849 | The guessed slot and the scan give the slot and the index below it. |
| Lookup.GuessIsLow | vm/src/std/owl_list.c:832-843 | The guess by shifting never exceeds the right slot. |
| Lookup.ScanStops | vm/src/std/owl_list.c:832-843 | The scan from any guess not past it stops at the right slot, inside the node. |
| Lookup.DescendIsIndexing | vm/src/std/owl_list.c:851-872 | Descending any mix of tabled and untabled levels reaches the element with that index. |
| Lookup.Nth | vm/src/std/owl_list.c:851-872 | Lookup is indexing below the count, and absent from there on. |
| Lookup.SetAtOk | vm/src/std/owl_list.c:1260-1296 | Replacing along the path changes exactly one element and keeps the invariant. |
| Lookup.Update | vm/src/std/owl_list.c:1260-1296 | Update yields a list for every index below the count only, equal but for that element, with the invariant kept. |
| Slice.DropLeafOk | vm/src/std/owl_list.c:888-935 | Removing the last leaf leaves exactly the elements before it, with the tables on the right edge corrected. |
| Slice.DropLeafSound | vm/src/std/owl_list.c:888-935 | Without its last leaf, however short, a tree is sound again. |
| Slice.PromoteRightmostLeaf | vm/src/std/owl_list.c:888-935 | The path array is rebuilt bottom-up into the tree without its last leaf, which becomes the tail; the root is lowered when one child is left. |
| Slice.PromotedOk | vm/src/std/owl_list.c:888-935 | After the promotion tree and tail together hold the old elements and the tree is well formed at its new height. |
| Slice.CutRightOk | vm/src/std/owl_list.c:972-1065 | The right cut keeps exactly the elements up to the index, searchable, at the reported height. |
| Slice.CutRightSliced | vm/src/std/owl_list.c:972-1065 | It leaves a sound tree sound but for its last leaf, and makes no short leaf at the left edge. |
| Slice.SliceRightRec | vm/src/std/owl_list.c:972-1065 | The recursive code with its scan does that cut. |
| Slice.SliceRight | vm/src/std/owl_list.c:937-970 | The first `right` elements, or the whole list when there are no more; both invariants are kept, and the strong one if and only if no root is left on too short a list. |
| Slice.LeftTable | vm/src/std/owl_list.c:1198-1235 | The cut table is exact in every entry but the last, and in the last one too where nodes follow. |
| Slice.CutLeftOk | vm/src/std/owl_list.c:1152-1254 | The left cut keeps exactly the elements from the index on, searchable, at the reported height. |
| Slice.CutLeftSound | vm/src/std/owl_list.c:1152-1254 | It keeps a sound tree sound, but for the last entry of the root's table. |
| Slice.SliceLeftRec | vm/src/std/owl_list.c:1152-1254 | The recursive code with its loops does that cut. |
| Slice.SliceLeft | vm/src/std/owl_list.c:1067-1150 | The elements from `left` on, or the empty list; the root's last entry is corrected, so both invariants are kept. |
| Slice.FillRootLeaf | vm/src/std/owl_list.c:1113-1148 | The redistribution between a short root leaf and the tail keeps contents and invariants, and leaves a root leaf full. |
| Slice.SliceList | vm/src/std/owl_list.c:1256-1258 | A slice holds exactly the elements from `from` up to the smaller of `to` and the count, nothing for an empty range, and keeps the invariants. |
| Slice.Pop | vm/src/std/owl_list.c:1299-1316 | All but the last element, with the invariants kept. |
| ListRuns.Run | vm/src/std/owl_list.c:118-1258 | Any program of pushes, concats and slices, in any order: unless it comes to an unsafe push or concat, where it stops with the operation and its arguments, the list and every lookup equal the sequence model. Pushes and concats alone never stop, nor do slices of what they built. |
| ListFaults.UnsafePushRun | vm/src/std/owl_list.c:1181-1190 | After 1057 pushes and two slices, one more push makes the second element absent. |
| ListFaults.LiteralsRun | vm/src/std/owl_list.c:633-637 | Lists of 40, 45 and 33 pushed elements: the slice from 30 to 42 of the first two still has a tree, its concat with the third counts 45 elements and holds 35, and the first element looked up is not the slice's. |
| CutLists.JoinSafeIsConcatSafe | vm/src/std/owl_list.c:118-190 | What is known of two lists from how they were made tells when their concat is safe. |
| CutLists.Join | vm/src/std/owl_list.c:1357-1362 | A safe concat holds left and then right, and is as whole as is known from its operands. |
| CutLists.SliceHeld | vm/src/std/owl_list.c:1348-1355 | A slice of a list without a tree, a longer front of a whole list, and an empty slice are whole. |
| CutLists.Cut | vm/src/std/owl_list.c:1348-1355 | The slice holds the elements of the range, and is as whole as is known. |
| ListFaults.DroppedTreeRun | vm/src/std/owl_list.c:633-637 | After 1057 pushes and two slices, a concat with any list that has a root counts an element that it does not hold. |
| TermEq.TermsEqDecides | vm/src/term.c:116-161 | For all words, the comparison answers equal if and only if the values are equal; lists are compared by contents, whatever their trees. |
| TermEq.WellTaggedCompares | vm/src/term.c:116-161 | Where no false stands against a tuple and no true against a string, the comparison does not crash. |
| TermEq.TermsEqIsEquivalence | vm/src/term.c:116-161 | Answering equal is reflexive, symmetric and transitive on all words. |
| TermEq.CompareTerms | vm/src/term.c:116-161 | The comparing code with its loops gives that verdict. |
| TermEq.CompareLists | vm/src/std/owl_list.c:1383-1400 | The loop over both lists by index is the comparison of their contents in order. |
| Gc.Collector.Copy | vm/src/alloc.c:156-185 | The word for the copy: unchanged off the heap, the forwarding address when there is one, else a fresh copy; everything copied before stays. An integer is unchanged if and only if its value is no heap address or the object there is not forwarded yet. |
| Gc.Collector.CopyRefs | vm/src/alloc.c:118-154 | After it the copy holds the moved words of the original, all objects they refer to copied. |
| Gc.Collector.CopyFields | vm/src/alloc.c:96-101 | The loop over the words of an object replaces every word, in place, by the word for its copy. |
| Gc.Collector.CopyListNode | vm/src/alloc.c:91-116 | A list node ends up forwarded to a copy whose children are copies. |
| Gc.Collector.SwapSpaces | vm/src/alloc.c:187-192 | The spaces change roles and allocation starts afresh. |
| Gc.Collector.GcCollect | vm/src/alloc.c:198-209 | Every register of every live frame is moved; exactly what the registers reach is copied, once; the bytes that the copies hold, length and header words, fields, elements, children and tables, lie between the start of the new space and what has been allocated of it, and those of different copies are apart; room used is the total of what was copied; an integer in a register stays if and only if its value is not the address of an object that an earlier register reaches, and one in an object if and only if it is not that of an object that was forwarded when its object was begun or that an earlier word there reaches; with no such integers every register stands for the same value as before; objects that the test for the heap does not cover are untouched. |
| GcModel.RoomIsBytes | vm/src/alloc.c:44-76 | The room taken for an object is 8 bytes for each of its words, listed one by one, or the characters of a string rounded up to words, and for a table a word and 4 bytes an entry. |
| GcOrder.MoveEnds | vm/src/alloc.c:91-116 | A rewritten node is moved, and what was forwarded when each object was begun is still as the order of the visits says: what earlier registers reach, or what was forwarded when the object that leads to it was begun and what that one's earlier words and nodes reach. |
| GcOrder.NodeVisited | vm/src/alloc.c:91-154 | After each node of a header or inner node, what is forwarded is what was when it was begun and all that its nodes so far reach. |
| Gc.IntegerInTuple | vm/src/alloc.c:118-130 | In a tuple of a reference and the integer that is its address, the integer is replaced when it comes second and survives when it comes first. |
| Gc.BehindTheHeap | vm/src/alloc.c:20 | A function behind the heap is moved when the upper space is emptied. |
| GcModel.ReachWordsLeast | vm/src/alloc.c:198-209 | What some words reach is contained in every set of objects that is closed under references and contains what the words refer to. |
| Gc.IntegerTaken | vm/src/alloc.c:156-172 | With a reference and the integer that is its address in two registers, the integer is replaced when it comes second and survives when it comes first. |
| GcMeaning.NewHeapOk | vm/src/alloc.c:80-209 | The heap after a collection is well formed and acyclic. |
| GcMeaning.ListAtKept | vm/src/alloc.c:91-116 | A list keeps its tree, shape and tables, with its elements translated. |
| GcMeaning.RegisterValue | vm/src/alloc.c:80-209 | After a collection the new heap is well formed and every surviving word stands in it for the same fully unfolded value as before. |
| GcMeaning.SharingKept | vm/src/alloc.c:40-45 | Two surviving words are equal afterwards if and only if they were equal before. |
| GcMeaning.ComparisonKept | vm/src/alloc.c:80-209 | What can be compared before can be compared after, with the same verdict. |
| GcMeaning.IntegersOutsideStay | vm/src/alloc.c:156-163 | Integers whose value is no heap address survive every collection, in registers and in objects. |
| Bytecode.FullNameInjective | compiler/src/bytecode/function.rs:14 | Name and arity can be told from the full name. |
| Bytecode.TextBytes | compiler/src/bytecode/instruction.rs:209-213 | A string constant or name has one byte for each character, the character's own: texts are equal if and only if the strings are, and the text of a concat is the concat of the texts. |
| Bytecode.QualifiedNameInjective | compiler/src/bytecode/mod.rs:50 | Where module names hold no point, functions that differ in module or name have different qualified names. |
| Bytecode.StoreIntSurvives | compiler/src/bytecode/instruction.rs:88-92 | A 16-bit constant split by 250 and read back survives if and only if it is below 250. |
| Bytecode.ReadIntJoins | vm/src/opcodes.c:28-35 | The two bytes of an integer are read as the number they are the digits of in base 256. |
| Bytecode.StoreIntReads | vm/src/opcodes.c:28-35 | What is read for each constant: 6 more for every 250 in it, less 65536 from 64000 on. |
| Bytecode.Writer.EmitInstr | compiler/src/bytecode/instruction.rs:80-230 | The writes of an instruction append exactly its bytes. |
| Bytecode.Writer.EmitFunction | compiler/src/bytecode/function.rs:13-23 | A function is its header and the bytes of its code. |
| Bytecode.Writer.EmitModule | compiler/src/bytecode/module.rs:11-15 | A module is its functions one after the other. |
| Loader.InternKeepsIds | vm/src/std/owl_code.c:135-147 | Interning is injective, and an id once given never changes. |
| Loader.ByteSizeIsLoadedSize | compiler/src/bytecode/instruction.rs:398-439 | The counted size is the loaded size, but for captures, which are one byte too long. |
| Loader.ByteSizeOfIsLoadedSize | compiler/src/bytecode/instruction.rs:441-443 | The counted size of code is its loaded size plus its captures: exact if and only if there are none. |
| Loader.LoadEmitted | vm/src/std/owl_code.c:41-215 | Loading an emitted instruction consumes exactly its bytes and appends its loaded form with the names interned. |
| Loader.LoadEmittedModule | vm/src/std/owl_code.c:41-215 | Loading an emitted module appends the code of its functions in order, under the ids of the final pools, and fills the table. |
| Loader.EmitThenLoad | vm/src/std/owl_code.c:148-163 | Each function's table entry is the position of its own code; entries of other functions are untouched; pools only grow. |
| Loader.ModuleLoader.LoadOne | vm/src/std/owl_code.c:49-212 | One round of the scanner loop does what the loading function says, failures included. |
| Loader.ModuleLoader.Load | vm/src/std/owl_code.c:41-215 | The whole loop does. |
| Decode.FetchLoaded | vm/src/opcodes.c:16-45 | Reading back a loaded instruction gives the emitted one with names as ids, and the position behind it. |
| Decode.FetchConstant | vm/src/opcodes.c:28-35 | So every integer constant, emitted, loaded and fetched, is that number. |
| Decode.ResolveInjective | vm/src/std/owl_code.c:135-212 | Nothing is lost: different instructions are read back differently. |
| Decode.FetchAllLoaded | vm/src/std/owl_code.c:41-215 | Reading as many instructions as were emitted gives the same list back. |
| Decode.ModuleRoundTrip | vm/src/std/owl_code.c:41-215 | A module emitted, loaded and read at each function's table entry gives back that function's instructions. |
| Vm.EqVDecides | vm/src/term.c:116-161 | On values, wherever the comparison has a result it is equality, whatever is known of their lists. |
| Vm.StepFrames | vm/src/opcodes.c:69-191 | Every step either changes registers of the running frame only, or enters the next frame, or returns one value to the frame below. |
| Vm.AboveZeroKept | vm/src/opcodes.c:180-191 | Every step keeps all registers of unused frames zero. |
| Vm.ReachableIsClean | vm/src/opcodes.c:69-191 | In every state a fresh machine reaches, the unused frames are zero. |
| Vm.LowerFramesStay | vm/src/opcodes.c:69-191 | While a call lasts, however deep it calls on, the frames below it do not change, nor where it returns to. |
| Vm.MatchedCallEffect | vm/src/opcodes.c:163-191 | A call and its matching return go on behind the call with one register of the caller changed and nothing else in the frames. |
| Vm.UpvaluesAfterCall | vm/src/opcodes.c:180-191 | Behind any call and its matching return, the upvalues are those of the function entered last in between, so the caller's again if and only if that function has the same ones. |
| Vm.UpvaluesLost | vm/src/opcodes.c:180-191 | Behind a call of a named function that makes no call itself there are none: the caller keeps its own if and only if it has none. |
| Upvalues.UpvalueGone | compiler/src/bytecode/mod.rs:210-218 | A compiled nested function that calls a named function and then reads a captured variable has no result, though its source has the variable's value. |
| Upvalues.SourceAndRunDiffer | compiler/src/bytecode/mod.rs:59-64 | With the compiled bodies loaded, the source has the captured value 40 and the run has no result. |
| Upvalues.ThenYCompiles | compiler/src/bytecode/mod.rs:210-218 | The code the compiler makes for that function. |
| Cells.EqCellIsEqV | vm/src/term.c:116-161 | Comparing cells, whatever the trees of their lists, is the comparison of their values. |
| Cells.CellsEq | vm/src/term.c:116-161 | The comparing code with its loops, lists by count and then element by element through lookups, gives that. |
| CutLists.PushedList | vm/src/opcodes.c:230-244 | The list of a literal is pushed together element by element; it holds the elements and is whole. |
| Cells.ConcatCells | vm/src/term.c:14-31 | The concat of two strings or of two list trees stands for the concat of their values, and has no result exactly where the tags differ or the lists would break. |
| Cells.Result | vm/src/opcodes.c:135-161 | Every operation on cells, lists by their trees and strings by their bytes, gives a cell for the value that the step over values gives; only an unsafe concat has no result. |
| Cells.CheckedIsSafe | vm/src/opcodes.c:367-376 | A checked machine has no result for any concat of lists that could break them. |
| CellSteps.StepStands | vm/src/vm.c:119-127 | A step over cells is the step over the values they stand for; it is missing only where that is, or at a concat whose lists, as held in the registers it names, would break. |
| CellSteps.UnsafeStops | vm/src/opcodes.c:367-376 | At such a concat there is no step over cells. |
| CellSteps.UnsafeUnchecked | vm/src/opcodes.c:367-376 | Nor is there a step of the checked machine over values. |
| Interpreter.VirtualMachine.NextVars | vm/src/opcodes.c:16-45 | Operand bytes are read one by one, and the cells in the variables they name. |
| Interpreter.VirtualMachine.OpCompute | vm/src/opcodes.c:135-161 | The opcodes that store a computed value do the step over cells, and its result stands for that of the values; they stop exactly where the operation on the cells in the registers named has no result. |
| Interpreter.VirtualMachine.OpList | vm/src/opcodes.c:230-244 | Building a list is a step. |
| Interpreter.VirtualMachine.OpTest | vm/src/opcodes.c:123-133 | So does the conditional jump. |
| Interpreter.VirtualMachine.SetupNextFrame | vm/src/opcodes.c:69-83 | The loop copies the arguments into registers 1 and on of the next frame and leaves its other registers. |
| Interpreter.VirtualMachine.OpCall | vm/src/opcodes.c:163-178 | The call of a named function is a step. |
| Interpreter.VirtualMachine.OpCallLocal | vm/src/opcodes.c:389-405 | The call of a function value is a step. |
| Interpreter.VirtualMachine.OpReturn | vm/src/opcodes.c:180-191 | The return is a step. |
| Interpreter.VirtualMachine.OpTuple | vm/src/opcodes.c:210-228 | Building a tuple is a step. |
| Interpreter.VirtualMachine.OpAnonFn | vm/src/opcodes.c:515-532 | Making a closure is a step: its location is behind its operands, and the jump leads over its body. |
| Interpreter.VirtualMachine.Round | vm/src/vm.c:119-127 | Whatever the opcode, one round of the interpreter is one step over cells. |
| Interpreter.VirtualMachine.Run | vm/src/vm.c:119-127 | Any number of rounds are as many steps over cells, and these stand for steps over values. All of them are done if and only if the values have them and none is at a concat whose lists, as held there, would break; in particular where the checked machine has them. |
| Interpreter.VirtualMachine.RunToExit | vm/src/vm.c:119-127 | Where the steps over values come to the exit, the loop comes to it, by the steps over cells, if and only if none of their states is at a concat whose lists, as held there, would break; otherwise it stops at one. |
| Vm.CheckedSteps | vm/src/opcodes.c:367-376 | A run of the checked machine is a run of the unchecked one. |
| FnGenerators.FnGenerator.PushUpvalue | compiler/src/bytecode/mod.rs:72-85 | A captured reference keeps its first index; a new one is appended. |
| FnGenerators.FnGenerator.SearchEnv | compiler/src/bytecode/mod.rs:92-104 | The lookup through the linked generators changes their upvalue lists as the lookup function says. |
| FnGenerators.FnGenerator.GenerateExpr | compiler/src/bytecode/mod.rs:117-220 | The generating methods produce the code, and leave all generators in the state, of the generating function; or both panic. |
| FnGenerators.FnGenerator.GenerateArgs | compiler/src/bytecode/mod.rs:125-130 | The loop over arguments. |
| FnGenerators.FnGenerator.GenerateLambda | compiler/src/bytecode/mod.rs:210-218 | A nested function is compiled by a linked generator of its own. |
| FnGenerators.GenerateModule | compiler/src/bytecode/mod.rs:332-345 | The loop over the functions of a module; there is code if and only if every function fits. |
| Limits.GenFits | compiler/src/bytecode/mod.rs:117-326 | For every expression of the whole language, code is given if and only if integers are at most 65535, names that stand alone are visible and bound names new, operators have their operands, no function needs more than 255 registers, and then-branches, else-branches with their jump, right sides of and and or, and nested functions, have at most 254 bytes; and the code has the length read off the expression, which counts a nested function's captures by the registers it reads further out. |
| Limits.FunctionCompiles | compiler/src/bytecode/mod.rs:48-64 | So for functions: code is given if and only if there are at most 255 parameters and the body fits, and its length is that of the body and the return. |
| Limits.ModuleCompiles | compiler/src/bytecode/mod.rs:332-345 | A module is compiled if and only if each of its functions fits. |
| Limits.SearchCaptures | compiler/src/bytecode/mod.rs:87-104 | A lookup captures the register a name lives in, however far out, in exactly the functions between. |
| Limits.HeldSize | compiler/src/bytecode/mod.rs:72-85 | A function has as many upvalues as registers of other functions it has captured. |
| Limits.OperatorSizes | compiler/src/bytecode/mod.rs:222-250 | The operators with an opcode, the operands each needs, and the bytes of its instruction. |
| Codegen.OperatorsNamed | compiler/src/bytecode/mod.rs:222-250 | Every operator is compiled to an opcode of its own, and to no other's. |
| Scopes.SearchFinds | compiler/src/bytecode/mod.rs:92-104 | A name is found if and only if it exists in the scope chain; the reference answered stays the name's reference; lists stay free of repetitions. |
| Scopes.RefStable | compiler/src/bytecode/mod.rs:72-104 | A reference, once there, keeps its index however much code is still generated. |
| Scopes.GenEvolves | compiler/src/bytecode/mod.rs:117-220 | Compiling any expression only appends to upvalue lists at every depth, never repeats a reference, and never hides a visible name. |
| Scopes.GenBodyEvolves | compiler/src/bytecode/mod.rs:210-218 | So does compiling a nested function, for its own scope and those around it. |
| Jumps.GenLands | compiler/src/bytecode/mod.rs:288-299 | Every jump in everything the compiler generates ends where an instruction begins or the code ends. |
| Jumps.LoadedJumpsLand | vm/src/opcodes.c:123-208 | In a function without captures this holds of the loaded bytes. |
| Operands.GenKeeps | compiler/src/bytecode/mod.rs:117-220 | How many registers an expression never gives back. |
| Operands.OperandsFoundIff | compiler/src/bytecode/mod.rs:125-131 | Operands are read from the registers they were computed into if and only if none contains an if or a let outside nested functions. |
| Operands.IfAsOperand | compiler/src/bytecode/mod.rs:141-151 | In an addition whose first operand is an if, the condition's register is added instead of the value's. |
| Relation.EqVIsEquality | vm/src/term.c:116-161 | Machine values that stand for comparable source values compare as the source values do. |
| Semantics.CheckedCall | compiler/src/bytecode/mod.rs:117-326 | What a checked program means, it means unchecked. |
| Semantics.DataComparable | vm/src/term.c:116-161 | Values without functions and booleans can always be compared, and are equal if and only if they hold the same. |
| Semantics.AddThenSub | vm/src/opcodes.c:135-161 | What is added can be taken away again, for all integers of 61 bits, and sums that fit are exact. |
| Semantics.LiteralsMean | compiler/src/bytecode/mod.rs:193 | Two string constants are equal if and only if they are the same in the source, and their concat is the constant of their concat. |
| Semantics.LiteralsMeasured | vm/src/std/owl_string.c:45-60 | A string constant has the count of its characters, and contains another if and only if the source string does. |
| Semantics.BoundCallMeansBody | compiler/src/bytecode/mod.rs:252-264 | A function bound by a let and then called means its body, with its parameters bound and the names of where it was made. |
| Semantics.ModuleCallMeansBody | compiler/src/bytecode/mod.rs:252-264 | A call of a function of another module means that function's body in its own module, with nothing of the caller's. |
| Sliceless.SameEval | vm/src/std/owl_list.c:118-190 | An expression that takes no slices, with values that hold none, means the same checked and unchecked. |
| Sliceless.SameCall | vm/src/std/owl_list.c:118-190 | So does every call in a program without slices, to any depth. |
| Relation.ComputesOperator | compiler/src/bytecode/mod.rs:222-250 | The opcode chosen for every operator that has a meaning computes it, checked or not: arithmetic, comparison, concat, and access to tuples, lists and strings. |
| Relation.OccursIsContains | vm/src/std/owl_string.c:51-60 | The search from the front finds a part if and only if the text has it somewhere. |
| Frames.ReadsVariable | compiler/src/bytecode/mod.rs:177-182 | The reference compiled for a name reads the value bound to it, through any number of enclosing functions. |
| Simulation.BranchLayout | compiler/src/bytecode/mod.rs:288-299 | The test leads exactly to the then-branch or the else-branch, and the jump behind the else-branch exactly past the then-branch. |
| Simulation.TestStep | vm/src/opcodes.c:123-133 | The then-branch runs exactly when the value is neither false nor nil. |
| Simulation.ClosureIsRelated | vm/src/opcodes.c:515-532 | The closure made at run time holds, for every name its body captures at any depth, the value the name had where it was made. |
| Simulation.SimulateExpr | compiler/src/bytecode/mod.rs:117-326 | For every expression of the fragment with a value, running its loaded bytes ends just behind them with that value in the destination; registers up to the entry counter and lower frames are unchanged, and so are the upvalues unless a call was made. |
| Simulation.SimulateShort | compiler/src/bytecode/mod.rs:266-286 | For and and or, the right side runs exactly when it is needed, and otherwise the left value stays. |
| Simulation.SimulateIf | compiler/src/bytecode/mod.rs:141-151 | For an if, exactly the chosen branch runs. |
| Simulation.SimulateLet | compiler/src/bytecode/mod.rs:200-209 | A let makes its value visible to the items behind it, in a register of its own. |
| Simulation.SimulateInvoke | vm/src/opcodes.c:163-191 | Entering a named function or a closure and running it to its return gives the caller the function's value, with any depth of further calls. |
| Simulation.SimulateFunction | compiler/src/bytecode/mod.rs:59-64 | A compiled body with its parameters in registers and captured names in upvalues returns the value of the source body. |
| Pipeline.CompileAndLoad | vm/src/std/owl_code.c:41-215 | Compiled modules with different names, emitted and loaded one after the other, give a machine that holds the whole program. |
| Pipeline.CallEnters | vm/src/opcodes.c:163-178 | With several modules loaded that have a function of the same name and arity, a call instruction enters the one of the module in its name. |
| Pipeline.ModuleCallEnters | compiler/src/bytecode/mod.rs:252-264 | A call `b.f(...)` compiled in any module enters the code of b's f. |
| Pipeline.RunFunction | vm/src/vm.c:129-146 | Starting a function ends at the exit instruction with the function's value in register 0. |
| Pipeline.CompiledProgramRuns | compiler/src/bytecode/mod.rs:332-345 | From source to result by the step function: compiling, emitting, loading and running a function of any of several modules gives the value the source has, with every concat taken to work or checked. |
| EndToEnd.RunProgram | vm/src/vm.c:129-146 | From source to result on the real lists: with modules compiled and loaded, a started function comes to the exit with a cell for the source's value in register 0 if and only if no state over cells is at a concat whose two lists, as held there, would break; otherwise it stops at one. It does not stop when the checked source has a value, and never in programs that take no slices. |
| Example.RunMain | vm/src/vm.c:129-146 | A function with a let, a closure, an if and a call of the closure meets every condition of the theorem; compiled, loaded and run on the interpreter it leaves 42 in register 0. |
| CutConcat.FirstMeans30 | compiler/src/bytecode/mod.rs:222-250 | A program of two concats and a slice means 30, and checked it has no meaning. |
| CutConcat.FirstInFragment | compiler/src/bytecode/mod.rs:117-326 | It lies in the fragment of the correctness theorem. |
| ClosedRuns.Compiles | compiler/src/bytecode/mod.rs:117-220 | A closed expression that needs fewer than 100 registers compiles, within the byte format and without names. |
| ClosedRuns.RunExpr | compiler/src/bytecode/mod.rs:117-220 | Where evaluation on the real lists has a cell, running the code puts that very cell into the destination and keeps the registers below. |
| ClosedRuns.ExprStops | compiler/src/bytecode/mod.rs:117-220 | Where it has none, running the code stops at the operation. |
| ClosedPrograms.RunClosed | vm/src/vm.c:129-146 | A closed expression with a value, compiled, loaded and run: the result is the cell that evaluation on the real lists gives, and there is none if and only if that gives none. |
| CutConcat.SourceAndListsDiffer | vm/src/std/owl_list.c:633-637 | The program, compiled, loaded and run, has no result, for its second concat would drop the tree of the slice; the list that the concat then makes is named, and its first element is 40. |

## Left out

- The parser and its grammar, command line, file access and load path, printing and exit codes: input and output. A function that is not loaded has no result in the model; the code would look for a file.
- Conversion to strings, function names, code loading at run time, output and `gc_collect` as instructions: they have no result in `Vm.Step` and no meaning in `Semantics.Eval`.
- The names `<`, `<=` and `>=`: no operation is generated for them in the code either.
- The fragment of the correctness theorem (`Semantics.BlockOk`): if and let only as items of a block and a let not as the last one; names bound in a branch not used outside it; captures of functions not under a jump; constants below 250; in nested functions nothing read or captured from outside behind a call, because a return does not restore the upvalues; names of functions called without a module not used as variables; at least two arguments for and and or. A concat of a list that may be cut has a value in the theorem's step function; on the real lists `EndToEnd.RunProgram` says what becomes of it. What fails outside it is shown by the members listed above.
- Meaning of the source: integers have 61 bits and wrap; comparing two functions, false with a tuple, or true with a string has no meaning; an index past 255 into a tuple, or past 32 bits into a list, has none; calls are limited by the 300 stack frames.
- Strings and names are sequences of characters taken as bytes, shorter than 2^31; encodings are not modelled, and names contain no zero byte and fit their length byte.
- The interner library is taken as a pool of names with positions as ids; more than 254 names or strings are excluded, as the assertions of the loader do for most of them.
- The code array has no size limit; reading past its end has no result, where the C code reads zeroes.
- The interpreter's cells are what its words stand for, lists as trees; the interpreter of the model never collects. What a collection at a call (`vm/src/opcodes.c:172`) does to the registers is stated over words: they stand for the same values where no integer, in registers or in live objects, is the address of something on the heap and what lies off the heap is well formed and refers to nothing on it (`GcMeaning.RegisterValue`); integers that are such addresses may be changed (`Gc.Collector.GcCollect`). The current function and the function of a frame are not roots of the collector in the code, so nothing is stated about them after a collection.
- Vm.EqVDecides: two functions compare by address, which values do not show; such a comparison has no result.
- A tuple of size 255 never ends in the code (an 8-bit counter) and has no result.
- List counts have 32 bits and trees at most 7 levels in the code; the model has no such limits, and takes shifts as division.
- Reading a child at the length of a node gives "absent" in the model.
- Slice.SliceLeft: header fields that the code changes in place are those of a new value in the model. With `left` 0 the header changed is the one `slice_right` returned, which is the list's own when nothing was cut off (`vm/src/std/owl_list.c:968`, `vm/src/std/owl_list.c:1113-1148`); the change keeps contents and invariants (`Slice.FillRootLeaf`), but who else sees it is not modelled.
- Lists that no sequence of operations makes, exact tables but a partly filled node without a table off the right edge, are outside the invariant of `Vectors.Concat`; on merely searchable lists only lookups, pushes, pops and slices are covered.
- Interpreter.VirtualMachine.OpCompute: what the C program goes on with after a concat that breaks its lists is said by `Vectors.Concat` and `Lookup.ConcatLookups` and shown for one run (`ListFaults.LiteralsRun`); the interpreter of the model stops there.
- Memory layout of the collector: objects are records at addresses, a size table belongs to its node, and the overflow check counts whole objects; strings are atomic and not empty (the code sizes them without their terminator). Two nodes share a table after `internal_node_dec` (`vm/src/std/owl_list.c:359`) and in `rrb_update`; no opcode calls `rrb_pop` or `rrb_update`, and after a slice the other owner is dead, so no reachable heap has such a table.
- Gc.Collector.GcCollect: a word that is neither an integer nor a reference has no address that the test for the heap covers as its value. An object behind the heap is overwritten when it is moved; a later collection that reaches the old place again is excluded (`Ready` asks for no forward flag on what is live), and so is what words outside the registers then find there.
- Allocation failure and raw pointers in the list code.
- Truncation of an upvalue index to a byte: code with more than 128 upvalues is excluded by `Bytecode.CodeOk`, as are registers past 99.
