# Verified models of five small programs from an assignments repository

This project models five self-contained pieces of code and proves properties about them in Dafny.

- **The class table of a Cool semantic analyser** (module `Semant`).
  - It seeds an inheritance graph with the five built-in classes Object, IO, Int, Bool and String.
  - It checks each declared class in order: a duplicate name, a class that inherits itself, and a class that inherits Bool, Int or String are each rejected.
  - It requires a class named `Main`.
  - It then walks every parent chain with a tortoise/hare walk to find undefined parents and inheritance cycles.
  - Every failed check reports one error and stops the construction.
- **A bit-vector set of integers over a fixed range** (module `IntSet`).
  - The set operations: contains, add, union, intersection, difference and symmetric difference.
  - The parser for the range argument `start-end`, and the parser for the operation keyword, which folds case.
  - The dispatch on the operation code.
  - The loader that adds numbers to a set and rejects out-of-range numbers and duplicates.
  - The writer that lists a set's members.
- **A PID allocator** (module `PidManager`). A table of 0/1 flags covers the PIDs 300..5000. Allocation takes the lowest free PID; releasing a PID frees its slot.
- **Matrix-chain multiplication by dynamic programming** (module `MatrixChain`).
  - The memo table starts with 0 on the diagonal and -1 elsewhere.
  - It is relaxed for windows of increasing length.
  - The answer is the entry for the whole chain.
- **The reference-count record of a block allocator**, and the size guard that creates its backing buffer (module `MemoryManager`).

`Wrappers` holds the shared `Option` type.

Each stateful entity of the code is a Dafny `class` whose methods change its fields:

- the class table (`graph`, `semantErrors`);
- the set (`bits`);
- the PID table (an `array?<int>` that is `null` until it is allocated);
- the DP solver (`dp`, a sequence of rows that the methods reassign);
- the registry record;
- the buffer holder.

Each method is proved against a specification function, for example:

- `Built` for the class table;
- `Elements` for a set;
- `RangeOf` for the range parser;
- `LowestFree` for allocation;
- `RelaxAll` and `MinCost` for the DP.

The properties the code promises are proved as lemmas about those functions. "Exits with an error" becomes an error value: `Option`, a `Walk` outcome, or an error count.

Notes on the analyser's control flow:

- **The first error ends construction.** The constructor in `Compilers/Semantic-Analyzer/semant.cc` returns right after the first error it reports (lines 103, 110, 117, 132, 152, 159, 167, 185), so the model ends with 0 or 1 errors.
- **A missing `Main` ends construction too** (line 132): the cycle check does not run.
- **No SELF_TYPE checks.** The code has no check of a class named SELF_TYPE or of a SELF_TYPE parent, and neither does the model.

## Model

| member | source | states |
|---|---|---|
| Semant.BasicGraph | Compilers/Semantic-Analyzer/semant.cc:190-295 | the seeded graph holds exactly Object, IO, Int, Bool and String, keyed by their names; Object's parent is `_no_class`, which is not in the graph, and every other built-in's parent is Object |
| Semant.BasicSignatures | Compilers/Semantic-Analyzer/semant.cc:214-288 | the exact feature lists of the built-ins: Object abort/type_name/copy, IO out_string/out_int/in_string/in_int with their argument and return types, Int and Bool `_val:_prim_slot`, String `_val:Int`, `_str_field:_prim_slot`, length, concat, substr |
| Semant.Verdict | Compilers/Semantic-Analyzer/semant.cc:98-118 | a declared class passes exactly when its name is not yet in the graph, it is not its own parent and its parent is not Bool, Int or String; a known name is always reported as a redefinition first |
| Semant.Declare | Compilers/Semantic-Analyzer/semant.cc:91-126 | the declaration loop only adds entries: every class already in the graph keeps its entry |
| Semant.DeclareAccepted | Compilers/Semantic-Analyzer/semant.cc:91-126 | the loop accepts all classes exactly when each passes the checks against the graph built by the ones before it |
| Semant.DeclareAcceptedGraph | Compilers/Semantic-Analyzer/semant.cc:120-125 | when all are accepted, the graph is the seed plus every declared class, and the Main flag is set exactly when one of them is named Main |
| Semant.DeclareRejected | Compilers/Semantic-Analyzer/semant.cc:99-118 | at the first failing class, the loop stops with the graph built so far (the failing class not inserted) and that class's error |
| Semant.Trichotomy | Compilers/Semantic-Analyzer/semant.cc:136-186 | every parent chain reaches Object, runs into a name outside the graph, or cycles forever inside the graph, and exactly one of these |
| Semant.MeetingIsCycle | Compilers/Semantic-Analyzer/semant.cc:175-179 | if the slow and fast positions meet before either reaches Object, the chain never reaches Object and never leaves the graph |
| Semant.EventualMeeting | Compilers/Semantic-Analyzer/semant.cc:147-180 | every chain has a position t >= 1 equal to position 2t; this bounds the `while(1)` walk |
| Semant.FloydWalk | Compilers/Semantic-Analyzer/semant.cc:139-186 | the walk from a class other than Object terminates; it reports success iff the chain reaches Object, an undefined parent iff the chain dangles (naming a class on the chain whose parent is missing), and a cycle iff the chain cycles |
| Semant.Built | Compilers/Semantic-Analyzer/semant.cc:84-188 | the outcome of construction has at most one error and keeps the five built-ins unchanged |
| Semant.NoErrorsIff | Compilers/Semantic-Analyzer/semant.cc:84-188 | zero errors exactly when every declared class passes, one is named Main, and every class of the resulting graph reaches Object through classes of the graph |
| Semant.MissingMain | Compilers/Semantic-Analyzer/semant.cc:128-133 | with every class accepted and none named Main, exactly one error is reported, whatever the shape of the graph: the cycle check does not run |
| Semant.FirstFailureStops | Compilers/Semantic-Analyzer/semant.cc:99-118 | the first failing class gives exactly one error, is not inserted, and no later class is inserted |
| Semant.BuiltinRedefined | Compilers/Semantic-Analyzer/semant.cc:99-104 | redeclaring a built-in class name is a redefinition error that stops construction |
| Semant.ThreeCycleReported | Compilers/Semantic-Analyzer/semant.cc:136-186 | a program with Main and classes A, B, C inheriting in a circle is reported with one error, and A's chain cycles |
| Semant.MainAloneAccepted | Compilers/Semantic-Analyzer/semant.cc:84-188 | a program whose only class is Main inheriting IO has no errors (IO is an allowed parent) |
| Semant.ClassTable.constructor | Compilers/Semantic-Analyzer/semant.cc:84-188 | the constructor, with its early returns, leaves exactly the graph and error count of `Built` |
| Semant.ClassTable.InstallBasicClasses | Compilers/Semantic-Analyzer/semant.cc:190-295 | the empty graph becomes the five built-in classes |
| Semant.ClassTable.SemantError | Compilers/Semantic-Analyzer/semant.cc:312-327 | each report adds exactly one to the error count |
| Semant.ClassTable.CheckInheritance | Compilers/Semantic-Analyzer/semant.cc:135-187 | walking the classes in any order adds no error when every chain reaches Object, and exactly one error otherwise |
| Semant.Semant | Compilers/Semantic-Analyzer/semant.cc:344-357 | the analyser halts exactly when the class table has errors |
| IntSet.BitSet.constructor | POPL/Assignment_2/set_implementation.cpp:31-38 | a new set has `rangeEnd - rangeStart + 1` slots, all absent, so it is empty |
| IntSet.BitSet.Contains | POPL/Assignment_2/set_implementation.cpp:45-48 | for n in the range, reading slot `n - rangeStart` tells whether n is a member |
| IntSet.BitSet.Add | POPL/Assignment_2/set_implementation.cpp:55-62 | returns false and changes nothing when n is present; otherwise returns true, makes n present and leaves every other slot unchanged |
| IntSet.BitSet.Union | POPL/Assignment_2/set_implementation.cpp:69-81 | a fresh set in which each number of the range is present iff it is in either operand; the operands do not change |
| IntSet.BitSet.Intersection | POPL/Assignment_2/set_implementation.cpp:88-100 | a fresh set in which each number is present iff it is in both operands |
| IntSet.BitSet.Difference | POPL/Assignment_2/set_implementation.cpp:107-117 | a fresh set in which each number is present iff it is in this set and not in the other |
| IntSet.BitSet.SymmetricDifference | POPL/Assignment_2/set_implementation.cpp:124-132 | a fresh set in which each number is present iff it is in exactly one operand |
| IntSet.CombineSymmetric | POPL/Assignment_2/set_implementation.cpp:124-132 | the symmetric difference does not depend on the order of the operands, and holds exactly the numbers in one operand but not both |
| IntSet.SetOperation | POPL/Assignment_2/set_implementation.cpp:405-420 | code 1 gives the union, 2 the intersection, 3 the difference, and any other code the symmetric difference |
| IntSet.LoadSucceedsIff | POPL/Assignment_2/set_implementation.cpp:297-316 | loading succeeds iff every number is in the range, none is already present and no number occurs twice |
| IntSet.CreateSet | POPL/Assignment_2/set_implementation.cpp:283-319 | the loader reports the first out-of-range or duplicate number in input order; on success the set gains exactly the numbers read |
| IntSet.WriteSet | POPL/Assignment_2/set_implementation.cpp:328-349 | the members are listed in strictly ascending order, and every member appears |
| IntSet.ParseRange | POPL/Assignment_2/set_implementation.cpp:140-201 | the loops compute exactly `RangeOf`: digits before the first '-' give the start and digits after it give the end; a leading '-', a non-digit, a trailing '-' or an end below the start is rejected |
| IntSet.DigitsDashDigits | POPL/Assignment_2/set_implementation.cpp:154-200 | "a-b", with a and b non-empty digit strings, parses to the values of a and b, or is rejected when b's value is below a's |
| IntSet.RangeRoundTrip | POPL/Assignment_2/set_implementation.cpp:140-201 | printing two ordered numbers as "a-b" and parsing the text gives them back |
| IntSet.RangeRejections | POPL/Assignment_2/set_implementation.cpp:147-200 | the forms "-a" and "a-", and "a-b" with b below a, are rejected |
| IntSet.StrayCharacterRejected | POPL/Assignment_2/set_implementation.cpp:157-185 | any character that is neither a digit nor '-' makes the range invalid |
| IntSet.RangeWithoutDash | POPL/Assignment_2/set_implementation.cpp:168-189 | as written, text without a '-' is accepted with end 0: "0" and "" parse to 0-0, while "7" is rejected only because 0 < 7 |
| IntSet.StrictRangeIff | POPL/Assignment_2/set_implementation.cpp:140-201 | the corrected parser accepts exactly the texts "a-b" with non-empty digit strings whose values are in order, and yields those values |
| IntSet.Toggle | POPL/Assignment_2/set_implementation.cpp:217 | `c ^ ' '` flips bit 5 of the code point: the code point's other bits are kept |
| IntSet.ToggleInvolution | POPL/Assignment_2/set_implementation.cpp:217 | toggling twice gives the character back |
| IntSet.Fold | POPL/Assignment_2/set_implementation.cpp:216-217 | upper-case letters become their lower-case letters; 'a'..'z' and '_' are kept |
| IntSet.FoldPreimage | POPL/Assignment_2/set_implementation.cpp:216-217 | a lower-case letter or '_' is the fold of exactly itself and its toggled form |
| IntSet.OperationCode | POPL/Assignment_2/set_implementation.cpp:221-234 | only the four keywords are accepted, with codes in 1..4 |
| IntSet.ParseOperation | POPL/Assignment_2/set_implementation.cpp:209-235 | the argument is folded in place, character by character, and the code is looked up on the folded C string (up to the first NUL) |
| IntSet.CaseVariantAccepted | POPL/Assignment_2/set_implementation.cpp:213-228 | an argument as long as a keyword folds to it iff each character is the keyword's character or its toggled form, and it then selects that keyword's code |
| IntSet.UpperCaseSpelling | POPL/Assignment_2/set_implementation.cpp:213-222 | "UNION" selects code 1 |
| IntSet.KeywordFolded | POPL/Assignment_2/set_implementation.cpp:216-228 | folding leaves each keyword unchanged, and no keyword holds a NUL |
| IntSet.SpaceEndsKeyword | POPL/Assignment_2/set_implementation.cpp:216-221 | a space folds to NUL, so a keyword followed by a space and any text selects that keyword |
| PidManager.LowestFree | Operating-Systems/Projects/Project_1/pid_manager.c:69-76 | the index found is free and every index before it is allocated; none is found iff every slot is allocated |
| PidManager.LowestFreeUnique | Operating-Systems/Projects/Project_1/pid_manager.c:69-76 | a free slot with no free slot before it is the one the scan finds |
| PidManager.AllocatedInRange | Operating-Systems/Projects/Project_1/pid_manager.c:71-74 | a PID handed out from a full-size table lies in 300..5000, and its slot was free |
| PidManager.ReleaseThenLowest | Operating-Systems/Projects/Project_1/pid_manager.c:69-104 | after freeing p with no lower PID free, p is the lowest free PID; freeing twice equals freeing once |
| PidManager.PidLibrary.constructor | Operating-Systems/Projects/Project_1/pid_manager.c:20 | there is no table at start |
| PidManager.PidLibrary.AllocateMap | Operating-Systems/Projects/Project_1/pid_manager.c:30-49 | a fresh table of 4701 slots, all free, and the result 1 |
| PidManager.PidLibrary.AllocatePid | Operating-Systems/Projects/Project_1/pid_manager.c:57-79 | with no table, -1; otherwise the lowest free index plus 300, with exactly that slot newly allocated; -1 and no change when every slot is allocated |
| PidManager.PidLibrary.ReleasePid | Operating-Systems/Projects/Project_1/pid_manager.c:87-105 | no table or a PID outside 300..5000 changes nothing; otherwise exactly slot `pid - 300` becomes free, allocated or not |
| PidManager.ReleaseThenAllocate | Operating-Systems/Projects/Project_1/pid_manager.c:57-105 | releasing p then allocating returns p when no lower PID is free, and p's slot ends allocated |
| MatrixChain.InitRow | POPL/Assignment_4/function_matrix_multiplication.py:36-37 | for i < n the row has length n, with 0 at position i and -1 everywhere else |
| MatrixChain.InitDpMatrix | POPL/Assignment_4/function_matrix_multiplication.py:42-43 | an n-by-n table (empty for n <= 0) with 0 on the diagonal and -1 off it |
| MatrixChain.Relax | POPL/Assignment_4/function_matrix_multiplication.py:9-10 | the relaxed entry is the candidate or the old value; it is at most the candidate and at most the old value if that was set; it is not -1 when the candidate is non-negative |
| MatrixChain.ChainSolver.constructor | POPL/Assignment_4/function_matrix_multiplication.py:52-56 | the dimensions and the initial table for `len(matrices) - 1` matrices |
| MatrixChain.ChainSolver.UpdateDpMatrix | POPL/Assignment_4/function_matrix_multiplication.py:4-10 | only entry i..j changes, to the relaxation of its old value by the split after k |
| MatrixChain.ChainSolver.SecondLoop | POPL/Assignment_4/function_matrix_multiplication.py:16-17 | only entry start..end changes; it is relaxed by the split points start..end-1 in increasing order |
| MatrixChain.ChainSolver.FirstLoop | POPL/Assignment_4/function_matrix_multiplication.py:22-23 | every window of the given length is relaxed from the entry values before the call; every other entry is unchanged |
| MatrixChain.RelaxAllFrame | POPL/Assignment_4/function_matrix_multiplication.py:9-23 | relaxing a window reads only the entries of the two parts of each split, so windows of one length can be solved in any order |
| MatrixChain.RelaxAllIsBest | POPL/Assignment_4/function_matrix_multiplication.py:9-17 | with all shorter windows final and no negative dimension, relaxing an unset entry yields the cheapest split |
| MatrixChain.ChainSolver.Solve | POPL/Assignment_4/function_matrix_multiplication.py:27-30 | returns the whole-chain entry, which is 0 for one matrix; `None` stands for the IndexError that `dp_matrix[0]` raises on the empty table when there are no matrices; with non-negative dimensions every entry i..j ends as the cheapest cost of that product |
| MatrixChain.MinCostIsLowerBound | POPL/Assignment_4/function_matrix_multiplication.py:13-30 | no bracketing of a product is cheaper than `MinCost` |
| MatrixChain.MinCostIsAttained | POPL/Assignment_4/function_matrix_multiplication.py:13-30 | some bracketing costs exactly `MinCost`, so `MinCost` is the minimum over all parenthesisations |
| MatrixChain.MinimumCost | POPL/Assignment_4/function_matrix_multiplication.py:52-60 | the program's answer is `None`, standing for the IndexError of `dp_matrix[0]` on the empty table (line 30), for fewer than two dimensions; 0 for one matrix, and with non-negative dimensions the cheapest multiplication cost of the chain |
| MemoryManager.Registry.constructor | POPL/Assignment_3/memory_manager.cpp:33-38 | the record holds the given index and size, with one reference |
| MemoryManager.Registry.Increment | POPL/Assignment_3/memory_manager.cpp:44-47 | the count goes up by exactly one, and only the count changes |
| MemoryManager.Registry.Decrement | POPL/Assignment_3/memory_manager.cpp:53-56 | the count goes down by exactly one with no floor, and only the count changes |
| MemoryManager.IncrementThenDecrement | POPL/Assignment_3/memory_manager.cpp:44-56 | `++` followed by `--` restores the record |
| MemoryManager.DecrementFromFresh | POPL/Assignment_3/memory_manager.cpp:33-56 | two decrements of a fresh record take the count to -1: nothing stops it below zero |
| MemoryManager.Memory.constructor | POPL/Assignment_3/memory_manager.cpp:12 | there is no buffer at start |
| MemoryManager.Memory.CreateBuffer | POPL/Assignment_3/memory_manager.cpp:63-81 | a size above 10000000 is refused before any allocation and the buffer is kept; a size in 0..10000000 gives a fresh buffer of exactly that many ints |

## Left out

- The text written to the error stream, file names and line numbers in analyser messages, symbol interning, and the driver's `exit(1)`. Only the error count is kept; symbols are strings.
- Method and attribute bodies of the built-in classes (`no_expr()`). They carry no information.
- Which class the cycle check reports first. The graph is iterated in key order of symbol pointers, which is unspecified. `Semant.ClassTable.CheckInheritance` picks classes in any order and states only order-independent facts.
- File I/O, the interactive prompts of `check_arguments` and the argv handling of `parse_arguments` in the set program. `IntSet.CreateSet` takes the numbers read as a sequence and `IntSet.WriteSet` returns the lines written as a sequence. Each `exit(0)` becomes an error value. The globals `range_start`, `range_end` and `operation` are fields and parameters.
- `IntSet.ParseRange`, `IntSet.ParseOperation`: C's 32-bit `int` overflow on long digit strings, and the sign of `char` for characters outside ASCII, are not modelled. Integers are unbounded, and characters are Unicode code points toggled at bit 5.
- `IntSet.ParseRange` models the code as written. It accepts text without a '-' (see Findings). `IntSet.StrictRangeOf` is the intended behaviour; nothing else in the model reads a parsed range.
- `malloc` failures and the `printf` messages of the PID allocator. Allocation of the table always succeeds.
- `MemoryManager.Memory.CreateBuffer`: allocation failure for a size within the limit is left out, since it depends on the system. A negative size is modelled as a failed allocation, because it converts to a huge unsigned request.
- `MemoryManager.Registry.Increment`: 32-bit overflow of `reference_count` past INT_MAX is undefined behaviour in C and is not modelled; the count is unbounded.
- The empty `main` of the memory manager.
- Reading the dimensions with `raw_input` and printing the answer in the matrix program. The dimensions are a parameter.
- `MatrixChain.ChainSolver.Solve`: the table's final contents are stated only for non-negative dimensions. With a negative dimension a real cost can equal the -1 "unset" marker, and then the result need not be the minimum. For dimensions `[1, 1, 0, -1]` the split after matrix 0 gives the true cost -1; the next relaxation takes that -1 for the marker and overwrites it with 0, so the code answers 0 while the bracketing M0(M1M2) costs -1.
- `MatrixChain.MinimumCost`, `MatrixChain.ChainSolver.Solve`: Python's IndexError for 0 or 1 dimensions is modelled as the result `None`.
- The privilege wrapper `set_priority.c`. It only packs a message for a system call.

## Findings

| source | as written | input that shows it | evidently intended | confidence | as-written member | corrected member |
|---|---|---|---|---|---|---|
| POPL/Assignment_2/set_implementation.cpp:168-189 | with no '-' in the text, the first loop stops at the end, `i++` steps past it, so the `i==len` guard does not fire and the end keeps its initial 0 | "0" (also "" and "00") is accepted as the range 0-0 | a range needs a start, a '-' and an end, as the comment at lines 191-195 says ("when no start or end range is provided") | not executed; follows from the code's control flow | IntSet.RangeWithoutDash | IntSet.StrictRangeIff |
