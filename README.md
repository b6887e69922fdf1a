# A verified model of the Copernicus core

Copernicus is a framework that runs large molecular-simulation workflows on
a network of servers and workers. This project models, in Dafny, the parts
of it that are sequential and self-contained, and proves what their code
promises. There is one Dafny module per source file. Two shared modules
hold the `Option`/`Result` wrappers (`Wrappers`) and the string helpers
that stand in for Python's `split`, `strip`, `lower`, `int()` and `float()`
and for C's `%d`/`%f` scanning (`Text`). A third, `Enumerations`, states
what it means for a sequence to list a set once each.

- **String-method reparametrization** (`Reparametrize`, `RepC`).
  - The Python helpers of `reparametrize.py` (`scale`, `mapadd`, `sub`, `dist`, `L`, `s`, `dir`, `rep_pts`) are the specification functions.
  - The C program `rep.cc` is modelled as imperative code over arrays and proved equal to them.
  - Coordinates are real numbers. The square root is a parameter that is only known to be non-negative and zero exactly at zero.
  - The proofs show that:
    - the end points stay fixed;
    - every new interior point lies on a segment of the old path at the right fraction of the arc length;
    - the bracketing segment always has positive length.
- **Dataflow naming** (`VType`, `Connection`, `Keywords`).
  - The item-path parser and printer of `vtype.py`, with round trips.
  - The type-parent walk and the record members.
  - `splitIOName` with its printers `srcString`/`dstString`.
  - Identifier fixing and validation.
- **Server state.**
  - The command queue (`CmdQueue`), with priority deques and active flags.
  - Commands and resources (`Commands`, `Resources`) and the platform's resource reservation (`Platforms`).
  - The worker matcher (`WorkerMatcher`).
  - The heartbeat and running-command lists (`Heartbeats`, `CommandLists`).
  - The node table and route search (`NodeList`, `Routes`), the object cache (`ObjectCache`) and sessions (`Sessions`).
  - Versions (`Versions`) and run variables (`RunVariables`).
  - State that the source changes in place is a Dafny `class` whose methods state the whole new state.
- **Helpers and readers.**
  - The iteration decision of the GROMACS wrappers (`Iterate`).
  - The prime factoring and core-count search of `tune` (`Tune`).
  - The boolean XML attribute (`XmlUtil`).
  - Configuration values and paths (`Configuration`).
  - The `.xvg`/`.itp` readers of the swarm library (`ReadXvg`).
  - The nearest lambda point of the free-energy library (`Lambdas`).

Files are read as sequences of line strings. Clocks (`time.time()`) are
parameters. Calls into code outside the model become parameters that are
constrained only as far as the code relies on them, such as the
executable lookup of the worker matcher.

The code and its documentation differ in eight places, each listed under
"## Findings" below. The Python and C versions of the reparametrization
also differ in one place: a repeated path point
makes `dir` divide by zero in `reparametrize.py` and return a zero vector
in `rep.cc`. The reparametrization loop never reaches that case, because
the segment it picks always has positive length. The model follows the
code, and `Reparametrize` proves that the case cannot be reached.

## Model

| member | source | states |
|---|---|---|
| Reparametrize.Scale | cpc/lib/swarms/reparametrize.py:25-29 | every coordinate of the vector multiplied by k |
| Reparametrize.MapAdd | cpc/lib/swarms/reparametrize.py:31 | coordinate-wise sum over the common coordinates |
| Reparametrize.SqDist | cpc/lib/swarms/reparametrize.py:35-36 | the sum of squared coordinate differences is non-negative |
| Reparametrize.SqDistZero | cpc/lib/swarms/reparametrize.py:35-36 | for points of equal dimension the squared distance is zero exactly when they coincide |
| Reparametrize.Dist | cpc/lib/swarms/reparametrize.py:35-36 | the distance is non-negative and, for equal dimensions, zero exactly for coincident points |
| Reparametrize.Segments | cpc/lib/swarms/reparametrize.py:44-47 | the summed segment lengths are non-negative |
| Reparametrize.Dir | cpc/lib/swarms/reparametrize.py:53-58 | dir divides by zero exactly for coincident non-empty points; otherwise it has the common dimension and the points are at positive distance |
| Reparametrize.DirScaled | cpc/lib/swarms/reparametrize.py:53-58 | each coordinate of dir times the distance is the coordinate difference |
| Reparametrize.LSentinel | cpc/lib/swarms/reparametrize.py:40-47 | L(0) is the sentinel 1 and L(1) is 0 |
| Reparametrize.LMonotone | cpc/lib/swarms/reparametrize.py:40-47 | L is non-decreasing for n >= 1 |
| Reparametrize.LStep | cpc/lib/swarms/reparametrize.py:44-47 | consecutive values of L differ by one segment length |
| Reparametrize.STargets | cpc/lib/swarms/reparametrize.py:49-51 | the first target arc length is 0 and the last is L(R) |
| Reparametrize.SRange | cpc/lib/swarms/reparametrize.py:49-51 | each interior target lies in [0, L(R)] and is 0 exactly when L(R) is |
| Reparametrize.FirstBracket | cpc/lib/swarms/reparametrize.py:69-71 | the search result is the first segment from the start bracketing the target, or one past the path |
| Reparametrize.FirstBracketIsFirst | cpc/lib/swarms/reparametrize.py:69-71 | no earlier segment brackets the target |
| Reparametrize.BracketExists | cpc/lib/swarms/reparametrize.py:69-71 | a target in (L(from-1), L(R)] is bracketed before the padding segment |
| Reparametrize.NoBracketAtZero | cpc/lib/swarms/reparametrize.py:69-71 | a non-positive target is never bracketed |
| Reparametrize.BracketPositive | cpc/lib/swarms/reparametrize.py:69-72 | a bracketing segment has positive length, so its end points differ |
| Reparametrize.Collect | cpc/lib/swarms/reparametrize.py:68-74 | a loop appending one result per iteration yields one value per element |
| Reparametrize.CollectFirstErr | cpc/lib/swarms/reparametrize.py:68-74 | the first failing iteration decides the exception |
| Reparametrize.SearchK | cpc/lib/swarms/reparametrize.py:69-71 | the while loop stops at the first bracketing segment, or where the next L would index past the path |
| Reparametrize.ComputePoint | cpc/lib/swarms/reparametrize.py:69-73 | one loop iteration computes the new point for index i or raises its error |
| Reparametrize.AdvanceFound | cpc/lib/swarms/reparametrize.py:72-73 | when the search stops inside the path dir succeeds and the point steps along that segment |
| Reparametrize.RepPts | cpc/lib/swarms/reparametrize.py:66-82 | the loop with list.insert computes exactly the specified reparametrized path or exception |
| Reparametrize.StepOnSegment | cpc/lib/swarms/reparametrize.py:72-73 | stepping by the remaining arc length along dir gives a point of the segment, a fraction in (0, 1] along it |
| Reparametrize.AdvanceErrors | cpc/lib/swarms/reparametrize.py:69-73 | a point fails exactly when no segment brackets its target, and then with IndexError, never ZeroDivisionError |
| Reparametrize.AdvanceInRange | cpc/lib/swarms/reparametrize.py:69-73 | a target in (0, L(R)] is found on a real segment |
| Reparametrize.AdvanceAtZero | cpc/lib/swarms/reparametrize.py:69-71 | a non-positive target runs the search off the end of the path |
| Reparametrize.AdvanceOnSegment | cpc/lib/swarms/reparametrize.py:69-73 | the computed point lies on the bracketing segment |
| Reparametrize.NewPointOk | cpc/lib/swarms/reparametrize.py:68-73 | with positive path length every new point is well defined |
| Reparametrize.NewPointInterpolates | cpc/lib/swarms/reparametrize.py:68-74 | the new point for index i is a linear interpolation within the segment bracketing s(i) |
| Reparametrize.NewPointsOk | cpc/lib/swarms/reparametrize.py:68-74 | with positive path length every iteration succeeds |
| Reparametrize.NewPointsZero | cpc/lib/swarms/reparametrize.py:68-71 | with zero path length the first iteration runs off the end |
| Reparametrize.RepPtsErrors | cpc/lib/swarms/reparametrize.py:66-82 | rep_pts fails exactly for the empty path and for a path of three or more points of length zero, always with IndexError |
| Reparametrize.RepPtsAt | cpc/lib/swarms/reparametrize.py:67-74 | slot j of the output holds the point computed for index j + 1 |
| Reparametrize.RepPtsDimAt | cpc/lib/swarms/reparametrize.py:66-82 | interior output points keep the input dimension |
| Reparametrize.RepPtsShape | cpc/lib/swarms/reparametrize.py:66-82 | the output keeps the length (two points for a one-point path), both end points and a common dimension |
| Reparametrize.FlatTail | cpc/lib/swarms/reparametrize.py:68-74 | past a segment whose end already has the whole path length, every later point coincides with that end |
| Reparametrize.FractionAtEnd | cpc/lib/swarms/reparametrize.py:71-73 | an arc length at the end of its bracketing segment puts the new point the whole way along it |
| Reparametrize.LastTargetAtEnd | cpc/lib/swarms/reparametrize.py:68-73 | for the last index the search stops at the first segment ending at the whole length L(R), at that segment's end |
| Reparametrize.RepPtsKeepsLastInterior | cpc/lib/swarms/reparametrize.py:66-82 | the point rep_pts computes for the last index is the path's point before the padding, unchanged |
| Reparametrize.Iterated | cpc/lib/swarms/reparametrize.py:152-162 | iterating rep_pts keeps the dimension, the length, both end points and, on a path of three or more points, the point before the last |
| Reparametrize.IteratedErrStays | cpc/lib/swarms/reparametrize.py:158-162 | once an iteration fails every later one fails with the same error |
| Reparametrize.PaddedPath | cpc/lib/swarms/reparametrize.py:143-147 | the padded path is start, averages, target and a zero point of the start's dimension |
| Reparametrize.PaddedSameDim | cpc/lib/swarms/reparametrize.py:143-147 | padding keeps all points the same dimension |
| Reparametrize.RunReparametrize | cpc/lib/swarms/reparametrize.py:143-168 | pads, applies rep_pts 36 times, drops the padding: one point per average plus the two end points, starting at the start point and ending at the target point |
| Reparametrize.DropsPadding | cpc/lib/swarms/reparametrize.py:143-168 | the point dropped at the end is the zero padding point |
| RepC.CoordLine | cpc/lib/swarms/rep.cc:81-92 | coordinate c of point p comes from fgets call 1 + p * numcvs + c, or keeps the unset allocation when %f fails |
| RepC.InputRow | cpc/lib/swarms/rep.cc:82-91 | a row holds numcvs coordinates, each read from its own line |
| RepC.InputPoints | cpc/lib/swarms/rep.cc:79-92 | the path as read has numpoints rows |
| RepC.NewPointCAt | cpc/lib/swarms/rep.cc:103-122 | the loop body for i steps from the start of the segment found by the search by s(i) - L(k-1) along dir |
| RepC.InteriorC | cpc/lib/swarms/rep.cc:103-122 | the interior has one point per index 2 .. numpoints-1 |
| RepC.DirCAgrees | cpc/lib/swarms/rep.cc:50-62 | at a positive distance rep.cc's dir is the Python dir and prints nothing |
| RepC.DirCZero | cpc/lib/swarms/rep.cc:53-61 | coincident points make dir print its diagnostic and give the zero direction |
| RepC.NewPointCSegment | cpc/lib/swarms/rep.cc:107-115 | on a path of positive length the segment found for a point lies inside the path and has positive length |
| RepC.NewPointCFound | cpc/lib/swarms/rep.cc:103-122 | on a path of positive length the search stays inside the path, the diagnostic is never printed, and the C point equals the Python point |
| RepC.NewPointCNone | cpc/lib/swarms/rep.cc:107-112 | the search runs past the path (undefined behaviour) exactly when the path has length zero |
| RepC.StepFacts | cpc/lib/swarms/rep.cc:103-122 | a pass is defined exactly on paths of positive length, and then silent |
| RepC.NewPointCUndefined | cpc/lib/swarms/rep.cc:107-112 | on a path of length zero the search reads past the end of the path |
| RepC.FlattenLength | cpc/lib/swarms/rep.cc:126-131 | numpoints * numcvs values are printed |
| RepC.FlattenAt | cpc/lib/swarms/rep.cc:126-131 | value p * numcvs + c printed is coordinate c of point p |
| RepC.NewPointDim | cpc/lib/swarms/rep.cc:116-121 | a reparametrized point has numcvs coordinates |
| RepC.OutputInteriorAt | cpc/lib/swarms/rep.cc:98-122 | slot q of the output, for an interior q, is the point computed for q + 1 |
| RepC.OutputAssembled | cpc/lib/swarms/rep.cc:98-122 | the output is the two end points around the recomputed interior |
| RepC.OutputDims | cpc/lib/swarms/rep.cc:98-122 | as many points are printed as were read, the first and last exactly as read, all of the input dimension |
| RepC.HeaderFailure | cpc/lib/swarms/rep.cc:67-75 | a header without two integers exits with code 1, the diagnostic, and no output |
| RepC.ExitShape | cpc/lib/swarms/rep.cc:64-137 | a normal run exits 0 with no diagnostic, printing numpoints * max(numcvs, 0) values that begin with the first point and end with the last as read |
| RepC.AgreesAt | cpc/lib/swarms/rep.cc:98-122 | every printed slot equals the slot rep_pts returns |
| RepC.AgreesInside | cpc/lib/swarms/rep.cc:103-122 | an interior printed point is the point rep_pts computes |
| RepC.AgreesWithPython | cpc/lib/swarms/rep.cc:98-122 | on two or more points the C program has undefined behaviour exactly where rep_pts raises, and otherwise prints what rep_pts returns |
| RepC.DistC | cpc/lib/swarms/rep.cc:10-22 | the loop computes the Euclidean distance of the two rows |
| RepC.RepL | cpc/lib/swarms/rep.cc:28-39 | rep_L computes L(n): the sentinel 1 at 0, else the first n - 1 segment lengths |
| RepC.RepS | cpc/lib/swarms/rep.cc:41-46 | rep_s computes the target arc length s(m) |
| RepC.DirM | cpc/lib/swarms/rep.cc:50-62 | writes the guarded direction into normed and reports the diagnostic |
| RepC.SearchKC | cpc/lib/swarms/rep.cc:107-112 | the do-while loop stops at the first bracketing segment, or where the next rep_L would index past the path |
| RepC.SearchStepC | cpc/lib/swarms/rep.cc:108-112 | one pass stops exactly when segment k brackets s(i) or k is past the path |
| RepC.AddScaled | cpc/lib/swarms/rep.cc:116-121 | the fresh row is the start point plus the scaled direction |
| RepC.InterpolateC | cpc/lib/swarms/rep.cc:103-122 | the loop body yields the specified point on a fresh row, or undefined behaviour |
| RepC.ReadPoints | cpc/lib/swarms/rep.cc:79-92 | the reading loops fill numpoints fresh rows with the scanned coordinates |
| RepC.ReadRow | cpc/lib/swarms/rep.cc:82-91 | one row of numcvs scanned coordinates |
| RepC.ShortPathRows | cpc/lib/swarms/rep.cc:98-122 | with one or two points the loop does not run and the output rows are the input rows |
| RepC.LongPathRows | cpc/lib/swarms/rep.cc:98-122 | the shared end rows and the filled interior rows hold the output path |
| RepC.AdjustPoints | cpc/lib/swarms/rep.cc:98-122 | the end rows are shared with the input, the interior rows are the specified points, nothing is printed; undefined exactly when the specification says |
| RepC.InteriorLoop | cpc/lib/swarms/rep.cc:103-122 | slot i - 1 receives the point computed for i; undefined exactly on a path of length zero |
| RepC.InteriorStep | cpc/lib/swarms/rep.cc:103-122 | one iteration writes exactly slot i - 1 |
| RepC.WriteOutput | cpc/lib/swarms/rep.cc:126-131 | the printing loops emit every coordinate, point-major |
| RepC.Run | cpc/lib/swarms/rep.cc:64-137 | main's outcome is the specified outcome for the input lines |
| VType.ParseItemList | cpc/dataflow/vtype.py:41-87 | the character loop computes the item list of the string, or the TypeErr/ValueError it raises; the text between brackets is read as `int()` reads it, whitespace after the sign included |
| VType.ItemListStr | cpc/dataflow/vtype.py:89-97 | the loop appends `[n]` for an index and `.name` for a name, item by item |
| VType.RunConcat | cpc/dataflow/vtype.py:49-81 | scanning a concatenation continues from the state the first part left |
| VType.RunName | cpc/dataflow/vtype.py:61-72 | inside a dotted item, characters other than separators and '[' extend the current name |
| VType.RunBracket | cpc/dataflow/vtype.py:50-60 | inside brackets, characters other than ']' extend the bracket text |
| VType.IndexDigits | cpc/dataflow/vtype.py:52-55 | the text `%d` writes between brackets holds no ']', is not '+', and `int()` reads it back |
| VType.RunBracketed | cpc/dataflow/vtype.py:50-60 | scanning `[d]` closes the pending item and appends what the closing bracket reads from d |
| VType.RunItem | cpc/dataflow/vtype.py:49-81 | scanning one printed item adds exactly that item |
| VType.RunItems | cpc/dataflow/vtype.py:49-81 | scanning a printed item list adds exactly those items |
| VType.FinishFlush | cpc/dataflow/vtype.py:82-87 | with no open bracket the pending dotted item is appended and the list returned |
| VType.ParseItemListStr | cpc/dataflow/vtype.py:41-97 | round trip: a printed non-empty item list parses back to the list after the empty leading name |
| VType.ParseAfterDot | cpc/dataflow/vtype.py:41-97 | the printed text without its leading '.' parses back to the list itself |
| VType.RunAfterName | cpc/dataflow/vtype.py:41-87 | a name followed by the printed text of further items parses to that name and those items |
| VType.ParseExample | cpc/dataflow/vtype.py:41-87 | "a.b[3]" parses to ["a", "b", 3] |
| VType.ParseEmpty | cpc/dataflow/vtype.py:82-84 | the empty string is the empty list, and a trailing '.' adds no empty name |
| VType.BracketThree | cpc/dataflow/vtype.py:52-55 | "3" between brackets is the index 3 |
| VType.BracketLetter | cpc/dataflow/vtype.py:55 | a letter between brackets makes `int()` raise ValueError |
| VType.BracketSpaced | cpc/dataflow/vtype.py:52-55 | a sign, whitespace and digits between brackets are the signed index, since `int()` skips whitespace after the sign |
| VType.BracketSpacedSign | cpc/dataflow/vtype.py:52-55 | "- 1" between brackets is the index -1 |
| VType.ParseNameBracket | cpc/dataflow/vtype.py:41-87 | a name without '.', ':' or '[' followed by one bracketed item parses to that name and the item |
| VType.ParseSpacedIndex | cpc/dataflow/vtype.py:41-87 | "a[- 1]" parses to ["a", -1] |
| VType.ParseUnclosed | cpc/dataflow/vtype.py:85-86 | an unclosed bracket is refused with TypeErr |
| VType.ParseTextAfterBracket | cpc/dataflow/vtype.py:73-81 | a plain character right after ']' is refused with TypeErr |
| VType.TextAfterBracket | cpc/dataflow/vtype.py:73-81 | after a closed bracket, a character that is neither a separator nor '[' raises TypeErr |
| VType.ParseBadIndex | cpc/dataflow/vtype.py:55 | non-numeric bracket text propagates ValueError |
| VType.Type.constructor | cpc/dataflow/vtype.py:104-119 | a new type keeps its name and parent and has no record members |
| VType.Type.IsSubtype | cpc/dataflow/vtype.py:147-155 | the parent-pointer walk answers whether the type is on this type's parent chain |
| VType.Type.AncestorsShallower | cpc/dataflow/vtype.py:100-119 | every ancestor is well formed and no deeper than the type |
| VType.Type.SubtypeAncestors | cpc/dataflow/vtype.py:147-155 | being a subtype is being among the ancestors |
| VType.Type.SubtypeReflexive | cpc/dataflow/vtype.py:148-149 | any type is a subtype of itself |
| VType.Type.SubtypeTransitive | cpc/dataflow/vtype.py:147-155 | a subtype of a subtype is a subtype |
| VType.Type.SubtypeAntisymmetric | cpc/dataflow/vtype.py:147-155 | two types each a subtype of the other are the same type, so the inheritance tree has no cycle |
| VType.Type.ShallowerStrict | cpc/dataflow/vtype.py:147-155 | a strict ancestor sits strictly higher in the tree |
| VType.Type.HasMemberKeys | cpc/dataflow/vtype.py:346-392 | hasMember agrees with membership in getMemberKeys, and hasMembers with its non-emptiness |
| VType.Type.AddMember | cpc/dataflow/vtype.py:393-407 | an existing member has its type and flags overwritten in place; a new one is appended last; afterwards hasMember(name) holds and getMemberKeys gains the name only if it was new |
| VType.BoolFromLiteral | cpc/dataflow/vtype.py:233-239 | true for "true" in any case or "1", false for "false" in any case or "0", TypeErr otherwise |
| VType.BoolLiteralRoundTrip | cpc/dataflow/vtype.py:233-244 | reading a written bool literal gives the bool back |
| VType.BoolLiteralExamples | cpc/dataflow/vtype.py:233-239 | "TRUE" is true, "False" is false, "yes" is refused |
| VType.IntFromLiteral | cpc/dataflow/vtype.py:251-255 | succeeds exactly when `int()` does (whitespace around the literal and after its sign allowed), with its value; its ValueError becomes TypeErr |
| VType.IntLiteralSpacedSign | cpc/dataflow/vtype.py:251-255 | the literal "- 5" is read as -5 |
| Text.ParseIntSpaceAfterSign | cpc/dataflow/vtype.py:253-254 | `int()` reads a sign, any whitespace and the digits of n as n with that sign |
| Text.ParseIntMinusSpaceFive | cpc/dataflow/vtype.py:253-254 | `int("- 5")` is -5 |
| VType.IntLiteralRoundTrip | cpc/dataflow/vtype.py:251-257 | reading a written int literal gives the int back |
| Connection.DirectionOf | cpc/dataflow/connection.py:67-112 | a keyword other than the expected one is refused; ext_in/ext_out on a non-self instance is refused; a non-keyword without an expected direction is ambiguous; the direction is left implied exactly for an empty specifier with an expected direction; in/out mean the subnet directions exactly on `self`; sub_in/sub_out are always the subnet directions; the direction is an input one exactly for in, ext_in and sub_in |
| Connection.SplitIOName | cpc/dataflow/connection.py:39-132 | the instance never holds a '.', and a name without '.' has no items |
| Connection.DirStringRoundTrip | cpc/dataflow/connection.py:429-467 | the specifier srcString/dstString print for a direction is read back as that direction |
| Connection.DirStringNoDot | cpc/dataflow/connection.py:429-467 | the printed direction specifier holds no '.' |
| Connection.DotlessSpec | cpc/dataflow/connection.py:39-132 | an instance:specifier name without '.' is not cut into an item list |
| Connection.SplitEndString | cpc/dataflow/connection.py:39-132 | round trip: a printed end point splits back into its instance, direction and items |
| Connection.SplitWithExpected | cpc/dataflow/connection.py:70-105 | an explicit in/out/sub_in/sub_out matching the expected direction splits as without an expectation, and without error |
| Connection.SplitImplied | cpc/dataflow/connection.py:106-112 | "inst:" takes its implied direction from the expectation, and is ambiguous without one |
| Connection.IndexAfterSpecifier | cpc/dataflow/connection.py:433-447 | an end point whose items start with an index prints the index glued to the specifier, which then is no direction keyword |
| Connection.SplitIndexFirst | cpc/dataflow/connection.py:433-447 | an item list starting with an index prints right after the specifier, and the printed name does not split back |
| Connection.Connection.constructor | cpc/dataflow/connection.py:233-271 | keeps both end points and the initial value; the implicit and external flags start false |
| Connection.Connection.SrcString | cpc/dataflow/connection.py:429-448 | the source string is empty exactly when the connection has an initial value instead of a source |
| Connection.Connection.DstString | cpc/dataflow/connection.py:450-467 | the destination string starts with the destination instance's name and ':' (StringsRoundTrip reads it back) |
| Connection.Connection.StringsRoundTrip | cpc/dataflow/connection.py:429-467 | both printed ends split back into the connection's end points |
| Connection.NewConnection | cpc/dataflow/connection.py:233-271 | neither source nor initial value raises "both empty", both raise "both set"; otherwise a fresh valid connection with the given end points |
| Keywords.FixID | cpc/dataflow/keywords.py:97-100 | every dash becomes an underscore and nothing else changes; no dash remains |
| Keywords.FixIDUnchanged | cpc/dataflow/keywords.py:97-100 | a string without dashes is left as it is |
| Keywords.FixIDIdempotent | cpc/dataflow/keywords.py:97-100 | fixing twice is fixing once |
| Keywords.DisallowedChars | cpc/dataflow/keywords.py:70-90 | the deleting translation is empty exactly when every character is allowed, and keeps only disallowed characters |
| Keywords.ValidIdentifier | cpc/dataflow/keywords.py:74-93 | as written: an empty string or a non-letter first character is refused; otherwise accepted, with the fixed string, exactly when some character is NOT allowed; an accepted result is never a reserved word |
| Keywords.ReservedAllowed | cpc/dataflow/keywords.py:66-70 | every reserved word consists of allowed characters |
| Keywords.ValidIdentifierIntended | cpc/dataflow/keywords.py:74-93 | as documented: accepted exactly when the first character is a letter, every fixed character is allowed and the result is not reserved |
| Keywords.IntendedAccepts | cpc/dataflow/keywords.py:74-93 | letters, digits, '_' and '-' after a first letter, not reserved, are accepted and fixed |
| Keywords.ValidIdentifierInverted | cpc/dataflow/keywords.py:88-92 | as written and as intended never accept the same string |
| Keywords.ValidIdentifierRefusesPlain | cpc/dataflow/keywords.py:88-92 | as written "abc" is refused, while the intended check accepts it |
| CmdQueue.QueueableItem.constructor | cpc/server/queue/cmdqueue.py:33-35 | a new item is active |
| CmdQueue.QueueableItem.Deactivate | cpc/server/queue/cmdqueue.py:37-38 | the item becomes inactive and keeps its priority |
| CmdQueue.DequeIndex | cpc/server/queue/cmdqueue.py:73-84 | priorities are clamped to -30..30 and priority p goes to deque 30-p, so 30 is first and -30 last |
| CmdQueue.DequeIndexMonotone | cpc/server/queue/cmdqueue.py:73-84 | a higher priority never lands in a later deque |
| CmdQueue.ActiveOnly | cpc/server/queue/cmdqueue.py:209-212 | the listed items are active items of the deque |
| CmdQueue.ActiveOnlyAppend | cpc/server/queue/cmdqueue.py:209-212 | listing two stretches of deque one after the other lists their concatenation |
| CmdQueue.Without | cpc/server/queue/cmdqueue.py:119-126 | the deque after remove holds no occurrence of the item and only items it held; it is unchanged when the item was absent |
| CmdQueue.WithoutCount | cpc/server/queue/cmdqueue.py:119-126 | remove takes out exactly the item's occurrences and nothing else |
| CmdQueue.OtherProjects | cpc/server/queue/cmdqueue.py:216-227 | the purged deque holds exactly the items of other projects |
| CmdQueue.FirstActive | cpc/server/queue/cmdqueue.py:140-146 | the position of the first active item of a deque, or its length; everything before it is inactive |
| CmdQueue.RemoveFirst | cpc/server/queue/cmdqueue.py:245 | inactiveItems.remove takes out one occurrence of the item |
| CmdQueue.ApplyOthers | cpc/server/queue/cmdqueue.py:45-48 | items never passed to setQueue keep their back-pointers |
| CmdQueue.ToInactive | cpc/server/queue/cmdqueue.py:145 | each item popped while inactive has its back-pointer set to inactiveItems |
| CmdQueue.ScanStep | cpc/server/queue/cmdqueue.py:166-180 | one inner iteration of getUntil advances by exactly one position |
| CmdQueue.ScanFrom | cpc/server/queue/cmdqueue.py:164-181 | the scan of a deque never passes its end |
| CmdQueue.Restart | cpc/server/queue/cmdqueue.py:163-165 | each deque's scan starts at the front with nothing rotated back |
| CmdQueue.ScanQueues | cpc/server/queue/cmdqueue.py:160-184 | getUntil yields a deque for each deque, the ones already scanned left as they are |
| CmdQueue.SubseqRefl | cpc/server/queue/cmdqueue.py:166-181 | a deque is in its own order |
| CmdQueue.SubseqKeep | cpc/server/queue/cmdqueue.py:172-174 | rotating an item to the back keeps the order of what was kept |
| CmdQueue.SubseqSkip | cpc/server/queue/cmdqueue.py:169-171 | popping an item keeps the order of what was kept |
| CmdQueue.SubseqDrop | cpc/server/queue/cmdqueue.py:166-181 | dropping the last kept item keeps the order |
| CmdQueue.SubseqAppend | cpc/server/queue/cmdqueue.py:181 | rotating the kept items back in front of the unscanned rest keeps the order |
| CmdQueue.StepKeepsOrder | cpc/server/queue/cmdqueue.py:166-180 | one inner iteration keeps the kept items in deque order |
| CmdQueue.StepConserves | cpc/server/queue/cmdqueue.py:166-180 | one inner iteration puts the item in exactly one of kept, returned (if active) or moved to inactiveItems (if inactive) |
| CmdQueue.ScanPartition | cpc/server/queue/cmdqueue.py:164-181 | a deque's scan loses no item, keeps the rest in order, returns only active items and moves only inactive ones |
| CmdQueue.ScanKeepsOrder | cpc/server/queue/cmdqueue.py:164-181 | after the final rotate a scanned deque is a subsequence of the old one |
| CmdQueue.ScanQueuesKeepsOrder | cpc/server/queue/cmdqueue.py:160-184 | getUntil keeps the order of every deque |
| CmdQueue.ScanQueuesConserves | cpc/server/queue/cmdqueue.py:160-184 | getUntil loses no item: each ends in a deque, the returned list or inactiveItems |
| CmdQueue.ScanQueuesSorts | cpc/server/queue/cmdqueue.py:160-184 | getUntil returns only active items and moves only inactive ones, each list growing at its end |
| CmdQueue.ProjectItemsAppend | cpc/server/queue/cmdqueue.py:229-238 | a project's items in two lists are those of each |
| CmdQueue.FirstActiveAt | cpc/server/queue/cmdqueue.py:140-146 | the first active position is the one before which all are inactive |
| CmdQueue.ActiveSetIs | cpc/server/queue/cmdqueue.py:142 | the snapshot of active flags tells exactly which items are active |
| CmdQueue.RemoveAll | cpc/server/queue/cmdqueue.py:119-126 | remove's loop leaves the deque without the item, the rest in order, and counts its occurrences |
| CmdQueue.PurgeQueueProject | cpc/server/queue/cmdqueue.py:216-227 | the deque keeps the other projects' items in order and the count is the number dropped |
| CmdQueue.PurgeAll | cpc/server/queue/cmdqueue.py:236-237 | every priority deque is purged of the project and the counts add up |
| CmdQueue.FindActive | cpc/server/queue/cmdqueue.py:138-147 | get's loop empties every deque before the first active item, returns that item, leaves the later deques alone, and moves the inactive items met, in order |
| CmdQueue.DequeFront | cpc/server/queue/cmdqueue.py:167-180 | during the scan the deque's front is the next item; popping it or rotating it to the back leaves the unscanned rest followed by the kept items |
| CmdQueue.RotateBack | cpc/server/queue/cmdqueue.py:181 | the final rotate brings the kept items back to the front of the deque |
| CmdQueue.ScanDeque | cpc/server/queue/cmdqueue.py:164-181 | one deque of getUntil, with its rotations, is the scan function's result rotated back |
| CmdQueue.ScanAll | cpc/server/queue/cmdqueue.py:163-183 | getUntil's outer loop is the scan over all deques, stopping after the deque where fn said stop |
| CmdQueue.CmdQueue.constructor | cpc/server/queue/cmdqueue.py:55-63 | a new queue has 61 empty priority deques, no inactive items and no back-pointers |
| CmdQueue.CmdQueue.GetSize | cpc/server/queue/cmdqueue.py:65-71 | the size is the number of items in the priority deques, inactive items not counted |
| CmdQueue.CmdQueue.Add | cpc/server/queue/cmdqueue.py:86-107 | an active item goes to the back of its priority deque, an inactive one to inactiveItems, and its back-pointer is set; the answer is always true |
| CmdQueue.CmdQueue.Remove | cpc/server/queue/cmdqueue.py:110-126 | an item whose deque is not a priority deque raises the wrong-queue error with nothing changed; otherwise every occurrence leaves its deque and the back-pointer is cleared |
| CmdQueue.CmdQueue.Get | cpc/server/queue/cmdqueue.py:130-147 | returns the front active item of the highest-priority deque holding one, or None after moving every item to inactiveItems; inactive items met move there in order |
| CmdQueue.CmdQueue.GetUntil | cpc/server/queue/cmdqueue.py:149-184 | the new deques, the returned items, inactiveItems and the back-pointers are those of the scan; with the lemmas above nothing is lost and order is kept |
| CmdQueue.CmdQueue.List | cpc/server/queue/cmdqueue.py:205-213 | the active items of the priority deques, in priority order |
| CmdQueue.CmdQueue.DeleteByProject | cpc/server/queue/cmdqueue.py:229-239 | every deque and inactiveItems lose the project's items, the count is the number dropped and their back-pointers are cleared |
| CmdQueue.CmdQueue.ActivateCommand | cpc/server/queue/cmdqueue.py:241-246 | an item queued in inactiveItems leaves it and is added again; an absent one raises an error; any other item changes nothing |
| CmdQueue.CmdQueue.Activate | cpc/server/queue/cmdqueue.py:40-43 | the item becomes active, keeping its priority; an item the queue does not hold changes nothing else; one whose deque is not inactiveItems changes nothing else; one whose deque is inactiveItems moves to the back of its priority deque, or raises the not-in-inactive error with nothing else changed when inactiveItems no longer holds it |
| Platforms.AfterReserve | cpc/command/platform.py:109-117 | after a reservation every maximum the command reserves drops by the reserved amount; the rest are untouched; no names are added |
| Platforms.AfterRelease | cpc/command/platform.py:119-127 | after a release every maximum the command reserves rises by the reserved amount; the rest are untouched |
| Platforms.ReleaseUndoesReserve | cpc/command/platform.py:109-127 | releasing what was reserved gives every maximum back |
| Platforms.ReserveUndoesRelease | cpc/command/platform.py:109-127 | reserving what was released gives every maximum back |
| Platforms.CanReserveKeepsNonNegative | cpc/command/platform.py:129-137 | from non-negative maxima, the check passes exactly when reserving leaves every maximum non-negative |
| Platforms.ShiftedSoFarStep | cpc/command/platform.py:115-117 | one more resource of the loop is shifted exactly as the loop body does |
| Platforms.ShiftedSoFarAll | cpc/command/platform.py:115-127 | after all resources the partial shift is the whole reservation (or release) |
| Platforms.ShiftOne | cpc/command/platform.py:115-117 | the loop body lowers (or raises) only the named maximum, by the reserved amount when reserved |
| Platforms.ShiftStep | cpc/command/platform.py:115-127 | one loop step carries the partial-shift invariant forward |
| Platforms.ShiftAll | cpc/command/platform.py:109-127 | the loop over the maxima reaches exactly the reservation (or release) of the command's amounts |
| Platforms.CanReserveAll | cpc/command/platform.py:133-137 | the loop answers true exactly when no reserved maximum would drop below zero |
| Platforms.Platform.constructor | cpc/command/platform.py:33-55 | a new platform has the given name, architecture and flags and no resources |
| Platforms.Platform.AddMaxResource | cpc/command/platform.py:58-60 | the resource is stored under its own name among the maxima |
| Platforms.Platform.AddMinResource | cpc/command/platform.py:75-77 | the resource is stored under its own name among the minima |
| Platforms.Platform.AddPrefResource | cpc/command/platform.py:92-94 | the resource is stored under its own name among the preferred amounts |
| Platforms.Platform.GetMaxResource | cpc/command/platform.py:64-73 | the maximum under the name, None exactly when hasMaxResource is false |
| Platforms.Platform.GetMinResource | cpc/command/platform.py:81-86 | the minimum under the name, or None exactly when absent |
| Platforms.Platform.GetPrefResource | cpc/command/platform.py:98-103 | the preferred amount under the name, or None exactly when absent |
| Platforms.Platform.ReserveCmdResources | cpc/command/platform.py:109-117 | the maxima become the reservation of the command's reserved amounts |
| Platforms.Platform.ReleaseCmdResources | cpc/command/platform.py:119-127 | the maxima become the release of the command's reserved amounts |
| Platforms.Platform.CanReserveCmdResources | cpc/command/platform.py:129-137 | true exactly when no maximum would drop below zero; reserved names without a maximum are ignored |
| Platforms.ReserveThenRelease | cpc/command/platform.py:109-127 | reserving and then releasing one command's resources restores every maximum |
| Commands.JoinValues | cpc/server/command/command.py:269-275 | the joined reservations cover both name sets; shared names get the sum, the others keep their own amount |
| Commands.JoinValuesSymmetric | cpc/server/command/command.py:269-275 | joining A into B gives the same amounts as joining B into A |
| Commands.JoinValuesEmpty | cpc/server/command/command.py:269-275 | joining an empty reservation list changes nothing |
| Commands.JoinedSoFarStep | cpc/server/command/command.py:271-275 | one more name of the other list is joined exactly as the loop body does |
| Commands.JoinedSoFarAll | cpc/server/command/command.py:271-275 | after every name of the other list, the partial join is the whole join |
| Commands.JoinOne | cpc/server/command/command.py:272-275 | a shared name's own object has the other amount added; a new name adopts the other command's object; nothing else changes |
| Commands.JoinStep | cpc/server/command/command.py:271-275 | one loop step carries the partial-join invariant from `done` to `done + {n}` |
| Commands.JoinInto | cpc/server/command/command.py:269-275 | the loop leaves every name of both lists, keeps own objects, adopts the other's new ones, and the amounts are the join |
| Commands.Command.constructor | cpc/server/command/command.py:66-110 | a new command has the given fields, no task, zero CPU time, no reservation, no maximum, and a fresh 1-core minimum |
| Commands.Command.SetTask | cpc/server/command/command.py:278-279 | the task is set; every other field is kept |
| Commands.Command.AddArg | cpc/server/command/command.py:136-137 | the argument is appended to the argument list; every other field is kept |
| Commands.Command.AddEnv | cpc/server/command/command.py:146-150 | the environment dictionary is created when absent and the name is bound to the value; every other field is kept |
| Commands.Command.AddOutputFile | cpc/server/command/command.py:162-168 | the output list is created when absent and the name is appended; every other field is kept |
| Commands.Command.GetWorkerServer | cpc/server/command/command.py:197-202 | the worker's server is reported only while running, None otherwise |
| Commands.Command.SetRunning | cpc/server/command/command.py:182-191 | the running flag is set; the worker server is kept when running and cleared when stopped; every other field is kept |
| Commands.Command.AddCputime | cpc/server/command/command.py:204-206 | CPU time grows by the given seconds; every other field is kept |
| Commands.Command.SetCputime | cpc/server/command/command.py:208-210 | CPU time becomes the given seconds; every other field is kept |
| Commands.Command.AddMinRequired | cpc/server/command/command.py:216-219 | the resource is stored under its own name among the minimum requirements; every other field is kept |
| Commands.Command.GetMinRequired | cpc/server/command/command.py:220-226 | the amount required under the name, or None exactly when there is none |
| Commands.Command.AddMaxAllowed | cpc/server/command/command.py:232-235 | the resource is stored under its own name among the maxima; every other field is kept |
| Commands.Command.GetMaxAllowed | cpc/server/command/command.py:236-242 | the maximum under the name, or None exactly when there is none |
| Commands.Command.ResetReserved | cpc/server/command/command.py:248-252 | the reservation becomes the minimum requirements, sharing the same resource objects; every other field is kept |
| Commands.Command.AddReserved | cpc/server/command/command.py:253-255 | the resource is stored under its own name among the reservations; every other field is kept |
| Commands.Command.SetReserved | cpc/server/command/command.py:256-259 | a fresh resource with the value replaces the entry; other entries keep their objects; every other field is kept |
| Commands.Command.GetReserved | cpc/server/command/command.py:260-266 | the reserved amount under the name, or None exactly when there is none |
| Commands.Command.HasReserved | cpc/server/command/command.py:267-268 | a reservation is held under the name exactly when getReserved finds one |
| Commands.Command.JoinReserved | cpc/server/command/command.py:269-275 | after joining, the reservations are the join of both lists (sums on shared names) and own objects are kept; every other field is kept |
| Commands.Command.GetFullPriority | cpc/server/command/command.py:283-284 | the task priority plus the added priority; None when there is no task |
| Commands.Command.IncreasePriority | cpc/server/command/command.py:285-287 | the added priority, and so the full priority, goes up by exactly one; every other field is kept |
| Resources.KeyedByNameDistinct | cpc/server/command/command.py:216-259 | in a name-keyed dictionary two names never share one resource object |
| Resources.Values | cpc/server/command/command.py:220-266 | the amounts of a resource dictionary, under the same names |
| Resources.Lookup | cpc/server/command/command.py:260-266 | the amount under a name, or None exactly when absent |
| Resources.Resource.constructor | cpc/server/command/resource.py:37-44 | a resource holds the given name and amount |
| Resources.Resource.Add | cpc/server/command/resource.py:46-51 | resources of another name are refused with an error and the amount is unchanged; otherwise the other amount is added |
| Resources.Resource.Subtract | cpc/server/command/resource.py:53-58 | as written: same name check as add, and on success the other amount is added, not taken away |
| Resources.SubtractAddsExample | cpc/server/command/resource.py:53-58 | a 4-core resource after subtracting 1 core holds 5 cores |
| Resources.Resource.SubtractCorrected | cpc/server/command/resource.py:53-58 | the documented subtraction: same refusal, and on success the other amount is taken away |
| Resources.AddThenSubtractRestores | cpc/server/command/resource.py:46-58 | adding and then (correctly) subtracting the same resource restores the amount |
| WorkerMatcher.BestUpTo | cpc/command/worker_matcher.py:38-44 | after k platforms the scan holds the largest core maximum seen (at least 0) and the first platform that strictly raised it |
| WorkerMatcher.BestPlatform | cpc/command/worker_matcher.py:36-45 | the platform used is one of the given platforms |
| WorkerMatcher.BestPlatformIsFirstLargest | cpc/command/worker_matcher.py:36-45 | the first platform when no core maximum is positive; otherwise a platform with the largest core maximum, and no earlier platform has as many |
| WorkerMatcher.MostCores | cpc/command/worker_matcher.py:36-45 | the loop over the platforms picks the one BestPlatform names: the first with the most cores, or the first platform when none lists cores |
| WorkerMatcher.FirstExecFrom | cpc/command/worker_matcher.py:70-75 | the executable found on the first platform that has one, None exactly when no platform has it |
| WorkerMatcher.Chosen | cpc/command/worker_matcher.py:115-121 | the reserved amount never exceeds what is left and is the preference, the command maximum or all that is left |
| WorkerMatcher.Budget.UsedSoFar | cpc/command/worker_matcher.py:107-125 | the partial use after some resources keeps the same names |
| WorkerMatcher.Budget.ReservedSoFar | cpc/command/worker_matcher.py:106-124 | the partial reservation covers exactly the command's minimum names |
| WorkerMatcher.ReserveWithinMaximum | cpc/command/worker_matcher.py:107-125 | after a command is accepted no required resource is used beyond the platform maximum |
| WorkerMatcher.PreferenceBelowMinimum | cpc/command/worker_matcher.py:115-116 | the platform preference wins even below the command's minimum (8 left, preference 1, minimum 4 reserves 1) |
| WorkerMatcher.FitsAll | cpc/command/worker_matcher.py:94-104 | the first loop answers true exactly when every required resource has at least the minimum left |
| WorkerMatcher.UsedSoFarStep | cpc/command/worker_matcher.py:112-125 | one more resource adds its reserved amount to the use when the command requires it |
| WorkerMatcher.ReservedSoFarStep | cpc/command/worker_matcher.py:112-124 | one more required resource gets its chosen amount as the reservation |
| WorkerMatcher.DepletesSoFarStep | cpc/command/worker_matcher.py:117-119 | the worker becomes depleted at a step exactly when the command maximum capped that reservation |
| WorkerMatcher.ChooseAmount | cpc/command/worker_matcher.py:115-121 | the amount is the preference if more is left, else the command maximum if more is left (which depletes), else all that is left |
| WorkerMatcher.ReserveIn | cpc/command/worker_matcher.py:124 | setReserved for one resource extends the reservations made so far |
| WorkerMatcher.ReserveOne | cpc/command/worker_matcher.py:107-125 | one pass of the reserving loop carries the use, reservation and depletion invariants forward |
| WorkerMatcher.ReservedAtSkip | cpc/command/worker_matcher.py:112 | a resource the command does not require changes no reservation |
| WorkerMatcher.ReserveAll | cpc/command/worker_matcher.py:106-125 | the reserving loop yields the whole new use, the whole reservation and the depletion flag |
| WorkerMatcher.Matcher.constructor | cpc/command/worker_matcher.py:32-52 | the matcher uses the platform with the most cores (first on ties, the first platform when none), starts with zero use of each of its maxima, no type and not depleted |
| WorkerMatcher.Matcher.CheckType | cpc/command/worker_matcher.py:54-60 | the first type is recorded and accepted; afterwards only that type is accepted |
| WorkerMatcher.Matcher.GetExecID | cpc/command/worker_matcher.py:62-75 | the executable on the platform used, else the one on the first platform that has it, else None |
| WorkerMatcher.Matcher.CheckWorkerRequirements | cpc/command/worker_matcher.py:77-86 | a worker dedicated to a project accepts only that project's commands; others accept all |
| WorkerMatcher.Matcher.BudgetFor | cpc/command/worker_matcher.py:94-111 | the amounts read for a command use the matcher's current use |
| WorkerMatcher.Matcher.CheckAddResources | cpc/command/worker_matcher.py:88-126 | refused (and depleted) exactly when some required resource has less than the minimum left, with nothing changed; otherwise the use and the reservation are the allocation's and depletion records a capped amount |
| WorkerMatcher.AddResources | cpc/command/worker_matcher.py:105-126 | the reservation is reset from the minimum and then set per required resource; use and depletion are the allocation's |
| WorkerMatcher.FirstExecSkips | cpc/command/worker_matcher.py:70-75 | platforms without the executable at the front can be skipped by the search |
| WorkerMatcher.MatchCommandWorker | cpc/command/worker_matcher.py:138-156 | a command without an executable, of another type or of another project is skipped with nothing changed; an eligible one is taken exactly when its resources fit, with the use, reservation and depletion of the allocation; one that does not fit stops the scan, marks the worker depleted and changes no use or reservation; the first command with an executable fixes the matcher's type |
| Versions.TokenNumber | cpc/server/command/version.py:31-34 | a token adds at most one number: its value, or nothing when `int()` refuses it |
| Versions.Numbers | cpc/server/command/version.py:30-34 | the list never has more numbers than there are tokens |
| Versions.NumbersSkip | cpc/server/command/version.py:33-34 | a refused token leaves the list as it was (the error object is built but never raised) |
| Versions.CollectNumbers | cpc/server/command/version.py:29-34 | the constructor's loop builds exactly the list of integer tokens |
| Versions.SplitWSOneToken | cpc/server/command/version.py:30 | a string without whitespace is a single token |
| Versions.DottedVersionIsEmpty | cpc/server/command/version.py:26-34 | any dotted version string, being one token `int()` refuses, reads as the empty list |
| Versions.IntRefusesDot | cpc/server/command/version.py:31-33 | `int()` refuses a token that holds a dot |
| Versions.Numerals | cpc/server/command/version.py:26 | one numeral per component |
| Versions.NumbersSnoc | cpc/server/command/version.py:30-34 | one more token appends exactly what that token adds |
| Versions.NumeralNumber | cpc/server/command/version.py:31-32 | `int()` reads a printed number back as that number |
| Versions.NumbersOfNumerals | cpc/server/command/version.py:30-34 | tokens printed as numbers read back as exactly those numbers, in order |
| Versions.DottedRoundTrip | cpc/server/command/version.py:26-34 | splitting at dots, as the class documents, reads the components of "x.y.z" back |
| Versions.DottedVersionAsWritten | cpc/server/command/version.py:27-34 | as written "4.5" reads as the empty list |
| Versions.DottedVersionCorrected | cpc/server/command/version.py:26 | read at its dots, "4.5" has components 4 and 5 |
| Versions.CompareFrom | cpc/server/command/version.py:42-56 | the loop as written answers only 0 or 1, and 1 exactly when some later padded component is larger |
| Versions.Compare | cpc/server/command/version.py:36-56 | `__cmp__` answers 1 exactly when some zero-padded component of self is larger, else 0; never -1 |
| Versions.CompareNotAntisymmetric | cpc/server/command/version.py:51-54 | 1.5 and 2.0 each compare greater than the other, while 1 and 2 compare equal |
| Versions.CompareCorrectedFrom | cpc/server/command/version.py:42-56 | the intended loop answers -1, 0 or 1 |
| Versions.CompareCorrected | cpc/server/command/version.py:36-56 | the intended comparison answers -1, 0 or 1 |
| Versions.CompareCorrectedFromSwap | cpc/server/command/version.py:42-56 | swapping operands negates the intended loop's answer |
| Versions.CompareCorrectedAntisymmetric | cpc/server/command/version.py:36-56 | swapping operands negates the intended comparison |
| Versions.CompareCorrectedFromZero | cpc/server/command/version.py:42-56 | the intended loop answers 0 exactly when the remaining padded components agree |
| Versions.CompareCorrectedZero | cpc/server/command/version.py:38-56 | 0 exactly when the zero-padded lists agree, so 1.0 equals 1 |
| Versions.CompareCorrectedFromLess | cpc/server/command/version.py:42-56 | the intended loop answers -1 exactly when the first differing remaining component is smaller |
| Versions.CompareCorrectedLess | cpc/server/command/version.py:38-56 | -1 exactly when the first differing padded component of self is smaller |
| Versions.CompareCorrectedExample | cpc/server/command/version.py:51-54 | with the intended comparison 1.5 is below 2.0 |
| Versions.Version.constructor | cpc/server/command/version.py:27-34 | keeps the string and reads its dot-separated integer components into the list, as the class documents |
| Versions.Version.GetStr | cpc/server/command/version.py:58-59 | the string the version was built from, which reads back (at its dots) as the version's components |
| Versions.Version.CompareTo | cpc/server/command/version.py:36-56 | `__cmp__` by the intended comparison: swapping the operands negates the answer |
| RunVariables.NameEnd | cpc/command/runvars.py:68 | the pattern's name part is the longest run of letters, digits and '_' from the position |
| RunVariables.SubstFromUnchanged | cpc/command/runvars.py:61-67 | a pass that meets no defined name copies the rest of the string |
| RunVariables.SubstUnchanged | cpc/command/runvars.py:61-68 | a string with no defined `$NAME` token comes out of a pass unchanged |
| RunVariables.NoDollarNotFoundFrom | cpc/command/runvars.py:68 | no token starts in a stretch without '$' |
| RunVariables.NoDollarNotFound | cpc/command/runvars.py:68 | a string without '$' holds no token |
| RunVariables.NothingDefinedNotFoundFrom | cpc/command/runvars.py:63-67 | with no variables no token is replaced |
| RunVariables.NothingDefinedUnchanged | cpc/command/runvars.py:61-67 | undefined tokens are left verbatim, so with no variables a pass changes nothing |
| RunVariables.SubstSingleToken | cpc/command/runvars.py:61-68 | a string that is exactly `$NAME` of a defined name becomes its value |
| RunVariables.NameEndAll | cpc/command/runvars.py:68 | a string of name characters is one name to its end |
| RunVariables.BracedNotExpanded | cpc/command/runvars.py:42-46 | `${NAME}` is not expanded by the pattern, contrary to the class documentation's example |
| RunVariables.NotFoundShift | cpc/command/runvars.py:68 | a first character that starts no token does not change what is found |
| RunVariables.FoundFromShift | cpc/command/runvars.py:68 | scanning past the first character equals scanning the rest |
| RunVariables.NameEndShift | cpc/command/runvars.py:68 | names end at the same place when the first character is dropped |
| RunVariables.ExpandStr | cpc/command/runvars.py:57-79 | as written the loop runs once (the flag is only set in the callback's local), so the result is exactly two substitution passes |
| RunVariables.ExpandStopsAtTwoLevels | cpc/command/runvars.py:70-79 | a three-deep chain A→$B→$C→x expands "$A" only to "$C" |
| RunVariables.ExpandStrCorrected | cpc/command/runvars.py:70-79 | the intended loop: rounds of two passes while a round replaced something, at most ten |
| RunVariables.ExpandRoundsNothingFound | cpc/command/runvars.py:73-79 | a string with no defined token is its own expansion |
| RunVariables.ExpandAgreesWithinTwoLevels | cpc/command/runvars.py:70-79 | where two passes leave nothing to replace, the corrected loop agrees with the code as written |
| RunVariables.ExpandCorrectedFollowsChain | cpc/command/runvars.py:70-79 | the corrected loop expands the three-deep chain "$A" to "x" |
| RunVariables.RunVars.constructor | cpc/command/runvars.py:47-48 | a new set of run variables is empty |
| RunVariables.RunVars.Add | cpc/command/runvars.py:49-51 | the variable is (re)defined with the value |
| RunVariables.RunVars.AddRunVars | cpc/command/runvars.py:52-56 | every variable of the other set is copied in, overriding same-named ones |
| RunVariables.RunVars.Expand | cpc/command/runvars.py:57-79 | expandStr with the current variables, by the corrected loop: rounds of two passes while something was replaced, at most ten |
| NodeList.NewNode | cpc/network/node.py:155-166 | a new node has the given host and ports, is identified by its qualified name and has no priority |
| NodeList.Without | cpc/network/node.py:81 | removing the node at a position shifts the later ones down by one |
| NodeList.Insert | cpc/network/node.py:87 | the node sits at the position, earlier ones unchanged and later ones shifted up |
| NodeList.WithoutInsert | cpc/network/node.py:81-87 | taking out what was inserted gives the list back |
| NodeList.InsertPos | cpc/network/node.py:87 | Python's list.insert position: a negative index counts from the end, and indices are clamped to the list |
| NodeList.TargetPos | cpc/network/node.py:84-87 | the node's new position in the list; None means last |
| NodeList.RenumberedAt | cpc/network/node.py:89-91 | after renumbering, every listed node is stored under its id with its position as priority, and no other id is stored |
| NodeList.RenumberedEntry | cpc/network/node.py:89-91 | the node at position i is stored with priority i |
| NodeList.InsertionPoint | cpc/network/node.py:68-69 | the stable-sort position of a node: after every node of equal or lower priority, before every higher one |
| NodeList.InsertPairSorted | cpc/network/node.py:68-69 | any pair in the list with the node inserted at its insertion point is in order |
| NodeList.InsertKeepsSorted | cpc/network/node.py:68-69 | inserting at the insertion point keeps the list sorted by priority |
| NodeList.InsertDistinct | cpc/network/node.py:68-69 | inserting a node with a new id keeps ids distinct |
| NodeList.InsertLists | cpc/network/node.py:81-87 | putting the removed node back into a listing of the other nodes lists the whole table |
| NodeList.RankLower | cpc/network/node.py:68-69 | in a sorted list of distinct non-negative priorities, the node at position i has priority at least i |
| NodeList.RankUpper | cpc/network/node.py:68-69 | in a sorted list of distinct priorities below the length, the node at position i has priority at most i |
| NodeList.Rank | cpc/network/node.py:68-69 | sorted priorities 0..n-1 put the node with priority i at position i |
| NodeList.RenumberedDense | cpc/network/node.py:89-91 | renumbering a full listing keeps the ids and every field but the priority, and the priorities become 0..n-1, each once |
| NodeList.RenumberStep | cpc/network/node.py:89-91 | one iteration of the renumbering loop stores the node at position i with priority i |
| NodeList.RenumberedCovers | cpc/network/node.py:81-91 | the renumbering overwrites every entry of the table, so the removed entry is back |
| NodeList.OldNodesRanked | cpc/network/node.py:39-42 | when a new node is appended last, the old nodes sit at the positions their priorities name |
| NodeList.AppendedEntries | cpc/network/node.py:39-42 | the renumbering gives old nodes their old entry and the new node the last priority |
| NodeList.AppendedKeys | cpc/network/node.py:39-42 | renumbering after addNode adds no id but the new one |
| NodeList.AppendKeepsOld | cpc/network/node.py:39-42 | adding a node with a new id to a table numbered 0..n-1 leaves every old node as it was and gives the new one priority n |
| NodeList.Nodes.constructor | cpc/network/node.py:35-36 | a new table is empty |
| NodeList.Nodes.AddNode | cpc/network/node.py:39-42 | the node is stored under its id with the last priority and the table stays numbered 0..n-1; a new id leaves the old nodes as they were |
| NodeList.Nodes.RemoveNode | cpc/network/node.py:45-48 | the id is gone; an unknown id changes nothing |
| NodeList.Nodes.Exists | cpc/network/node.py:50-62 | true exactly when the id is stored |
| NodeList.Nodes.Get | cpc/network/node.py:63-64 | the node stored under the id, which carries that id; None where the source raises KeyError |
| NodeList.Nodes.Size | cpc/network/node.py:65-66 | the number of stored nodes |
| NodeList.Nodes.GetNodesByPriority | cpc/network/node.py:68-69 | every stored node exactly once, in non-decreasing priority order (no priority first) |
| NodeList.Nodes.ChangePriority | cpc/network/node.py:76-91 | the node moves to the requested position (last for None, Python insert rules otherwise), the others keep their sorted order, and all are renumbered by position; an unknown id changes nothing |
| NodeList.Nodes.Renumber | cpc/network/node.py:89-91 | the renumbering loop stores each listed node with its position as priority |
| Routes.WalkReach | cpc/network/node.py:135-146 | the end of a walk along neighbour links is reached within as many steps as the walk has links |
| Routes.ReachInNodes | cpc/network/node.py:135-138 | the search only reaches nodes of the topology |
| Routes.FrontierBound | cpc/network/node.py:109-117 | a node still in the topology that is k steps away implies a waiting node with a known distance of at most k |
| Routes.NearestIsShortest | cpc/network/node.py:111-117 | the nearest waiting node's distance is its shortest distance from start |
| Routes.StuckUnreachable | cpc/network/node.py:109-120 | when no waiting node has a distance, every node left is out of reach of start |
| Routes.RelaxOver | cpc/network/node.py:135-146 | relaxing neighbours leaves the topology as it is |
| Routes.RelaxOverStep | cpc/network/node.py:138-146 | one neighbour still in the topology gets distance d+1 and this previous hop when it had none or a longer one; otherwise nothing changes |
| Routes.Relax | cpc/network/node.py:135-146 | the neighbour loop relaxes every neighbour of the node visited |
| Routes.RelaxFacts | cpc/network/node.py:138-146 | exactly the improved neighbours get distance d+1 via the node; all other distances and hops stay |
| Routes.VisitKeepsInv | cpc/network/node.py:109-146 | visiting the nearest waiting node keeps the search invariant (hops consistent, distances shortest for visited nodes) |
| Routes.VisitRest | cpc/network/node.py:120-146 | the bookkeeping parts of the invariant survive a visit |
| Routes.VisitPrevOk | cpc/network/node.py:143-146 | every previous hop stays a visited neighbour one step nearer |
| Routes.VisitEdgesOk | cpc/network/node.py:138-146 | every neighbour of a visited node has a distance at most one more |
| Routes.VisitMonotone | cpc/network/node.py:111-120 | visited nodes are never farther than waiting ones |
| Routes.VisitFinal | cpc/network/node.py:111-120 | a visited node's distance never exceeds a step count that reaches it |
| Routes.Nearest | cpc/network/node.py:111-117 | the node picked is a waiting node of least distance |
| Routes.BuildRoute | cpc/network/node.py:123-131 | following the previous hops back from end gives a walk from start to end one longer than end's distance |
| Routes.FindRoute | cpc/network/node.py:98-149 | a shortest route whenever start and end are connected; the empty list when end is not in the topology; the unbound-variable error when start is not in it; a non-ending search when only unreachable nodes are left |
| Routes.SearchStep | cpc/network/node.py:109-146 | one pass either answers as findRoute promises or keeps the invariant and shrinks the topology |
| Routes.FoundSpec | cpc/network/node.py:123-131 | the route built once end is nearest is a shortest route |
| Routes.StuckSpec | cpc/network/node.py:109-120 | a stuck search has every node left out of reach, so end is not connected |
| Routes.NotConnectedOutside | cpc/network/node.py:99-149 | no walk starts or ends outside the topology |
| Heartbeats.IdsOf | cpc/server/state/heartbeat.py:121-122 | the ids add looks up, one per command, in order |
| Heartbeats.FirstRepeat | cpc/server/state/heartbeat.py:121-123 | add stops at the first command whose id is already running or was added earlier in the same call; all before it are new |
| Heartbeats.FirstRepeatPast | cpc/server/state/heartbeat.py:121-123 | a command whose id is new is not where add stops |
| Heartbeats.BelowRepeat | cpc/server/state/heartbeat.py:121-123 | while the entries so far are those of the commands before, a command whose id is not running yet lies before the first repeat |
| Heartbeats.PingItem | cpc/server/state/heartbeat.py:199-216 | an unknown command or one owned by another worker changes nothing; an OK item binds the worker and records the directories and the time |
| Heartbeats.PingRun | cpc/server/state/heartbeat.py:195-217 | ping answers every item and keeps the set of running commands |
| Heartbeats.PingRunAnswers | cpc/server/state/heartbeat.py:195-217 | ping never rebinds a command that has a worker, and each answer is what the entries before the signal decide |
| Heartbeats.PingOk | cpc/server/state/heartbeat.py:201-210 | an item is answered OK exactly when its command runs with no worker or this worker |
| Heartbeats.PingRunEffects | cpc/server/state/heartbeat.py:209-216 | after ping each command of an OK item belongs to this worker and was heard from now; commands no item names are unchanged |
| Heartbeats.Live | cpc/server/state/heartbeat.py:241-250 | the entries that have not run out, unchanged |
| Heartbeats.FirstExpiryAsWritten | cpc/server/state/heartbeat.py:241-246 | as written the estimate depends on dictionary order: two entries give 11.2 s one way and 10.5 s the other, both past the 10 s bound |
| Heartbeats.FirstExpiryCorrectedIsLeast | cpc/server/state/heartbeat.py:238-246 | the corrected estimate is the least of the bound and one second past each live entry's expiry, in any order |
| Heartbeats.EntriesIn | cpc/server/state/heartbeat.py:241 | the entries in the order the dictionary visits their keys |
| Heartbeats.EntriesInSnoc | cpc/server/state/heartbeat.py:241 | visiting one more key appends its entry |
| Heartbeats.FirstExpirySnoc | cpc/server/state/heartbeat.py:241-246 | scanning one more entry applies one corrected loop iteration to the estimate |
| Heartbeats.VisitStep | cpc/server/state/heartbeat.py:241-246 | one iteration keeps the estimate equal to the scan over the keys visited |
| Heartbeats.DeleteStep | cpc/server/state/heartbeat.py:243-244 | one iteration lists the entry for deletion exactly when it has run out |
| Heartbeats.CheckEntry | cpc/server/state/heartbeat.py:242-246 | an entry is expired when now is past lastHeard plus two intervals; otherwise an entry whose expiry plus one second is earlier moves the estimate there, so the estimate only moves earlier |
| Heartbeats.ScanEntry | cpc/server/state/heartbeat.py:241-246 | one iteration keeps both loop invariants |
| Heartbeats.DeletedIsLive | cpc/server/state/heartbeat.py:249-250 | deleting the listed entries leaves exactly the live ones |
| Heartbeats.Scan | cpc/server/state/heartbeat.py:238-246 | the first loop visits every entry once, computes the corrected estimate over that order and lists exactly the expired entries with their commands |
| Heartbeats.AddInvStep | cpc/server/state/heartbeat.py:126-128 | adding one command's entry extends the added prefix by one |
| Heartbeats.RunningCmdList.constructor | cpc/server/state/heartbeat.py:100-110 | a new list holds no running command |
| Heartbeats.RunningCmdList.Add | cpc/server/state/heartbeat.py:118-129 | every command before the first repeated id gets a fresh entry and is marked running on the server; at a repeat the duplicate-id error is raised, the earlier ones staying added and every command not added left unchanged |
| Heartbeats.RunningCmdList.AddLoop | cpc/server/state/heartbeat.py:121-129 | the loop raises exactly at the first repeated id, adding and marking every command before it, and may change only those commands |
| Heartbeats.RunningCmdList.AddStep | cpc/server/state/heartbeat.py:121-129 | one iteration extends both add invariants by one command |
| Heartbeats.RunningCmdList.AddOne | cpc/server/state/heartbeat.py:126-129 | the command gets an entry with no worker, heard from now, and is marked running on the server; the commands added before it stay marked |
| Heartbeats.RunningCmdList.Remove | cpc/server/state/heartbeat.py:131-138 | the entry is deleted; an unknown command raises not-found and changes nothing |
| Heartbeats.RunningCmdList.HandleFinished | cpc/server/state/heartbeat.py:140-154 | the entry is deleted and its command handed on; an unknown id raises not-found |
| Heartbeats.RunningCmdList.Ping | cpc/server/state/heartbeat.py:187-217 | the entries and answers are those of the ping run, and the result is True exactly when every answer is OK |
| Heartbeats.RunningCmdList.DeleteAll | cpc/server/state/heartbeat.py:249-250 | exactly the listed entries are deleted; the others are unchanged |
| Heartbeats.RunningCmdList.CheckHeartbeatTimes | cpc/server/state/heartbeat.py:233-260 | exactly the expired entries are removed and their commands returned to be queued; the estimate is the corrected scan from now plus the heartbeat time, which is the least of that bound and one second past each live expiry |
| CommandLists.RunningCmdList.constructor | cpc/server/state/cmdlist.py:31-34 | a new list holds no command |
| CommandLists.RunningCmdList.Get | cpc/server/state/cmdlist.py:36-45 | the command stored under the id; not-found exactly when the id is absent |
| CommandLists.RunningCmdList.Add | cpc/server/state/cmdlist.py:47-53 | an id already present raises and changes neither the list nor the command; otherwise the command is stored under its id and marked running at the location, its other fields kept |
| CommandLists.RunningCmdList.Remove | cpc/server/state/cmdlist.py:55-62 | the entry is deleted; an unknown command raises not-found and changes nothing |
| CommandLists.RunningCmdList.HandleFinished | cpc/server/state/cmdlist.py:64-73 | the entry is deleted; an unknown command raises not-found and changes nothing |
| CommandLists.RunningCmdList.List | cpc/server/state/cmdlist.py:77-83 | every stored command exactly once, in the dictionary's order |
| Iterate.LengthsAppend | cpc/lib/gromacs/iterate.py:51-56 | considering one more input adds its length to the lengths seen |
| Iterate.NumberOfIterations | cpc/lib/gromacs/iterate.py:49-70 | the decision raises exactly when two iterated inputs hold different numbers of items; otherwise N is the common length of the iterated inputs, or 1 when no input is iterated but some holds one item, else 0 |
| Iterate.Decide | cpc/lib/gromacs/iterate.py:49-70 | the loop returns the decided N with one iterate flag per input, or the error of the first disagreeing input |
| Iterate.FlagsAppend | cpc/lib/gromacs/iterate.py:57-70 | considering one more input sets its flag to "holds more than one item" |
| Iterate.DecideNStops | cpc/lib/gromacs/iterate.py:62-65 | once an input raises, later inputs do not change the error |
| Iterate.Iterations.constructor | cpc/lib/gromacs/iterate.py:42-71 | keeps the decided N, the flags and the outputs |
| Iterate.Iterations.GetN | cpc/lib/gromacs/iterate.py:73-75 | N is the common length of the iterated inputs, else 1 or 0 |
| Iterate.Iterations.IsIterated | cpc/lib/gromacs/iterate.py:77-79 | defined exactly for the inputs considered (a KeyError otherwise), and true exactly when the input holds more than one item |
| Iterate.Iterations.Connect | cpc/lib/gromacs/iterate.py:81-97 | one wire per input in dictionary order, from element i when the input is iterated and element 0 otherwise, then one wire per output to element i |
| Iterate.WireInputs | cpc/lib/gromacs/iterate.py:88-94 | the first loop: one wire per input, from element i or 0 by its flag |
| Iterate.WireOutputs | cpc/lib/gromacs/iterate.py:95-97 | the second loop: one wire per output, to element i |
| Iterate.NewIterations | cpc/lib/gromacs/iterate.py:42-71 | raises IterateError exactly when two iterated inputs disagree, otherwise builds the decided object |
| Iterate.InputWireParses | cpc/lib/gromacs/iterate.py:90-94 | an input wire reads back as element k of the own external input feeding the new instance's input of that name |
| Iterate.OutputWireParses | cpc/lib/gromacs/iterate.py:96-97 | an output wire reads back as the new instance's output feeding element i of the own external output |
| Iterate.SelfEndParses | cpc/lib/gromacs/iterate.py:90-97 | "self:ext_in.name[k]" and "self:ext_out.name[k]" read back as element k of that external I/O |
| Iterate.InstanceEndParses | cpc/lib/gromacs/iterate.py:91-96 | "inst:in.name" and "inst:out.name" read back as that instance's I/O |
| Iterate.SelfEndPrinted | cpc/lib/gromacs/iterate.py:90-97 | the wire's own end is what the connection printer would write for it |
| Iterate.InstanceEndPrinted | cpc/lib/gromacs/iterate.py:91-96 | the wire's instance end is what the connection printer would write for it |
| Tune.SmallestDivisor | cpc/lib/gromacs/tune.py:52-57 | the first divisor the trial division meets is prime and no smaller number divides the quotient |
| Tune.FactorsFromCorrect | cpc/lib/gromacs/tune.py:52-57 | from a state with no divisor below d the loop produces non-decreasing primes, all at least d, whose product is x |
| Tune.PrimeFactors | cpc/lib/gromacs/tune.py:48-58 | primefactors returns the prime factors with multiplicity, smallest first, whose product is x; nothing for x < 2 |
| Tune.TakeFactor | cpc/lib/gromacs/tune.py:53-55 | a step that divides takes the factor out and keeps the candidate |
| Tune.SkipCandidate | cpc/lib/gromacs/tune.py:56-57 | a step that does not divide moves to the next candidate |
| Tune.SearchCores | cpc/lib/gromacs/tune.py:84-91 | the first value counting down from the start that is at most 4, is 6, or is below 32 with more than two prime factors; never below 6 when starting from 6 or more, always below 32 |
| Tune.Trunc | cpc/lib/gromacs/tune.py:78 | Python int() of a float truncates toward zero |
| Tune.CellsFitInBox | cpc/lib/gromacs/tune.py:76-78 | cells counted per edge, times the cell volume, fit in the box |
| Tune.BoxCellsFit | cpc/lib/gromacs/tune.py:73-78 | the cell count from the three box edges fits in the box |
| Tune.CellsAsWrittenExample | cpc/lib/gromacs/tune.py:73-78 | with all three edges read from the first field a 13 x 3 x 3 box counts 1000 cells, more than fit; the three edges give 40 |
| Tune.TuneCores | cpc/lib/gromacs/tune.py:61-93 | as written, with the cell count taken from the first field for all three edges: min cores is 1; max cores is at most that count and N/250, acceptable, and the largest acceptable value under both |
| Tune.TuneCoresCorrected | cpc/lib/gromacs/tune.py:61-93 | with the cell count from the three box edges, which fits in the box (BoxCellsFit): min cores is 1; max cores is at most that count and N/250, acceptable, and the largest acceptable value under both |
| XmlUtil.GetBooleanAttribute | cpc/util/xmlutil.py:32-45 | an absent attribute is false; otherwise true exactly for "1", "yes", "true" and false exactly for "0", "no", "false" after lower-casing, and any other value raises an error naming the attribute and the lower-cased value |
| XmlUtil.CaseInsensitive | cpc/util/xmlutil.py:40 | the letter case of the value does not change the answer |
| XmlUtil.BoolTextRoundTrip | cpc/util/xmlutil.py:40-44 | a written "true"/"false", in any letter case, reads back as its boolean |
| XmlUtil.UpperCaseYes | cpc/util/xmlutil.py:40-42 | "YES" reads as true |
| Configuration.PathJoin | cpc/util/conf/conf_base.py:307-314 | os.path.join: an absolute second part replaces the first; otherwise the parts are joined with one '/'; an absolute first part gives an absolute path |
| Configuration.ReMatch | cpc/util/conf/conf_base.py:65-70 | the pattern matches exactly when some prefix of the value is in its language (re.match anchors only the start) |
| Configuration.MatchesExtended | cpc/util/conf/conf_base.py:68 | text after a matching prefix does not stop the match |
| Configuration.ConfValue.constructor | cpc/util/conf/conf_base.py:46-55 | keeps name, default, description, flag, relTo, pattern and allowed values, with no set value |
| Configuration.ConfValue.Get | cpc/util/conf/conf_base.py:57-62 | the set value when there is one, else the default |
| Configuration.ConfValue.HasSetValue | cpc/util/conf/conf_base.py:86-89 | true exactly when a value is set; otherwise get answers the default |
| Configuration.ConfValue.Set | cpc/util/conf/conf_base.py:63-80 | accepted exactly when the pattern matches at the start and the value is allowed, and then it is the value; a refused value raises the pattern error first, else the allowed-values error, and leaves the value unchanged |
| Configuration.ConfValue.Reset | cpc/util/conf/conf_base.py:82-89 | afterwards no value is set and get returns the default |
| Configuration.Cleaned | cpc/util/conf/conf_base.py:403-406 | the loop keeps at most one entry per part |
| Configuration.CleanedEntries | cpc/util/conf/conf_base.py:403-406 | every kept entry is non-empty and stripped |
| Configuration.CleanedClean | cpc/util/conf/conf_base.py:403-406 | clean entries pass through unchanged |
| Configuration.PluginPathRoundTrip | cpc/util/conf/conf_base.py:401-406 | a ':'-joined list of clean entries is read back as the same list |
| Configuration.EmptyPluginPath | cpc/util/conf/conf_base.py:401-406 | an empty plugin path reads back as no directories |
| Configuration.Chain | cpc/util/conf/conf_base.py:311-315 | the relTo chain lists names of the table only |
| Configuration.Conf.constructor | cpc/util/conf/conf_base.py:101-158 | keeps the executable's base directory; the table starts empty because the environment-derived entries `__init__` adds (hostname, global_dir, conf_dir, base_dir, conf_file, exec_base_dir) are omitted |
| Configuration.Conf.Add | cpc/util/conf/conf_base.py:229-235 | a fresh value with the default and no set value is stored under the name, replacing any earlier one; other names are untouched |
| Configuration.Conf.WalkKeepsAbsolute | cpc/util/conf/conf_base.py:312-315 | once the path is absolute, ancestors further up cannot change it |
| Configuration.Conf.WalkAbsoluteAncestor | cpc/util/conf/conf_base.py:312-315 | an absolute ancestor makes the result absolute |
| Configuration.Conf.WalkCycle | cpc/util/conf/conf_base.py:312-315 | a walk that does not end follows a relTo chain longer than the table |
| Configuration.Conf.CycleRepeats | cpc/util/conf/conf_base.py:312-315 | getFile fails to return only when the relTo chain revisits a name |
| Configuration.Conf.GetFile | cpc/util/conf/conf_base.py:302-316 | the walk computes the specified path; an absolute value is returned as it is |
| Configuration.Conf.UserSet | cpc/util/conf/conf_base.py:326-332 | an unknown name raises KeyError; a value not user settable raises ConfError unchanged; otherwise it is set exactly when the value accepts it |
| Configuration.Conf.GetPluginPaths | cpc/util/conf/conf_base.py:400-408 | the stripped non-empty entries of plugin_path, in order, then the plugin directory under the executable's base; KeyError without plugin_path |
| Configuration.Conf.WrittenValues | cpc/util/conf/conf_base.py:279-286 | the dictionary write serialises holds exactly the names with a set value, each with its value |
| ObjectCache.Cache.constructor | cpc/network/cache.py:39-47 | a new cache is empty |
| ObjectCache.Cache.Get | cpc/network/cache.py:69-81 | the value stored under the key, or nothing when the key is absent |
| ObjectCache.Cache.Size | cpc/network/cache.py:82-84 | the number of stored keys |
| ObjectCache.Cache.Add | cpc/network/cache.py:65-68 | stores or overwrites the value; other entries unchanged; the size grows only for a new key |
| ObjectCache.Cache.Remove | cpc/network/cache.py:55-59 | deletes the key, an absent key changes nothing; other entries unchanged; the size shrinks only for a present key |
| ObjectCache.Cache.CleanAll | cpc/network/cache.py:49-52 | the cache is emptied |
| ObjectCache.AddSize | cpc/network/cache.py:65-68 | storing under a key grows the map by one exactly when the key is new |
| ObjectCache.RemoveSize | cpc/network/cache.py:55-59 | deleting a present key shrinks the map by one |
| Sessions.Session.constructor | cpc/server/state/session.py:27-30 | a new session for the uid holds nothing and records its creation time |
| Sessions.Session.Contains | cpc/server/state/session.py:32-33 | `key in session` exactly when `session[key]` does not raise |
| Sessions.Session.GetItem | cpc/server/state/session.py:35-36 | the stored value, or a KeyError for a missing key |
| Sessions.Session.Get | cpc/server/state/session.py:44-49 | the stored value, or the default when the key is absent |
| Sessions.Session.Set | cpc/server/state/session.py:38-39 | the key now maps to the value, other keys unchanged |
| Sessions.Session.DelItem | cpc/server/state/session.py:41-42 | a present key is removed; a missing key raises KeyError and changes nothing |
| Sessions.Session.Reset | cpc/server/state/session.py:51-52 | the session holds nothing afterwards |
| Sessions.SessionHandler.constructor | cpc/server/state/session.py:64-65 | a new handler has no sessions |
| Sessions.SessionHandler.GetSession | cpc/server/state/session.py:67-76 | the existing session unchanged; otherwise None, or with auto-create a fresh empty session created now and installed under the uid |
| Sessions.SessionHandler.CreateSession | cpc/server/state/session.py:79-85 | a fresh empty session installed under the uid, replacing any earlier one |
| ReadXvg.ResidueNumber | cpc/lib/swarms/readxvg.py:33 | the residue number is read from the part after the first '-', so a label without '-' fails |
| ReadXvg.ResidueNumberOfLabel | cpc/lib/swarms/readxvg.py:33 | a label such as "ARG-8" reads back as its number |
| ReadXvg.ParseRow | cpc/lib/swarms/readxvg.py:31-33 | a parsed row has at least three fields, phi and psi are the floats of the first two, the residue that of the third |
| ReadXvg.XvgRows | cpc/lib/swarms/readxvg.py:29-33 | the rows are read exactly when every line is a comment or a well-formed row; otherwise the error names the first bad line |
| ReadXvg.XvgRowsNext | cpc/lib/swarms/readxvg.py:29-33 | a comment line adds no row, a data line adds its row |
| ReadXvg.Selected | cpc/lib/swarms/readxvg.py:34 | only rows whose residue is selected are kept |
| ReadXvg.FlatPairs | cpc/lib/swarms/readxvg.py:34-35 | the flat list holds phi then psi of each selected row, in file order |
| ReadXvg.ReadXvgFlat | cpc/lib/swarms/readxvg.py:26-37 | readxvg_flat returns the selected rows' phi/psi values in order, or fails at the first bad line |
| ReadXvg.FlatNext | cpc/lib/swarms/readxvg.py:34-35 | a row adds its pair exactly when its residue is selected |
| ReadXvg.PairsOf | cpc/lib/swarms/readxvg.py:15-19 | a residue has at most one pair per row |
| ReadXvg.GroupedByResidue | cpc/lib/swarms/readxvg.py:15-19 | a residue has an entry exactly when it is selected and some row has it, and the entry lists that residue's pairs in file order |
| ReadXvg.GroupedNext | cpc/lib/swarms/readxvg.py:15-19 | an unselected row changes nothing; a selected one appends its pair, creating the entry on first sight |
| ReadXvg.ReadXvgGrouped | cpc/lib/swarms/readxvg.py:3-21 | readxvg returns the selected rows' pairs grouped by residue, or fails at the first bad line |
| ReadXvg.DihedralValue | cpc/lib/swarms/readxvg.py:60 | the dihedral value is the float of the sixth field |
| ReadXvg.DihHeaderTest | cpc/lib/swarms/readxvg.py:54 | the header test raises on an empty line or where it indexes past a short line, and is true exactly for '[' followed, two places on, by "dih" |
| ReadXvg.DihresFlatAsWritten | cpc/lib/swarms/readxvg.py:44-63 | as written, the reader fails at a line of the file |
| ReadXvg.DihresFlatAsWrittenStops | cpc/lib/swarms/readxvg.py:53-61 | the as-written reader stops at the first failing line |
| ReadXvg.DihresFlatAsWrittenFailsOnHeader | cpc/lib/swarms/readxvg.py:54-61 | as written, a file with a "[ dih..." header always fails: the header line itself is read as a value line |
| ReadXvg.BracketedTest | cpc/lib/swarms/readxvg.py:54 | a bracketed section name passes the header test |
| ReadXvg.HeaderHasNoValue | cpc/lib/swarms/readxvg.py:60 | a header line has no sixth field |
| ReadXvg.DihresFlat | cpc/lib/swarms/readxvg.py:44-63 | the intended reader: before the section no values are collected |
| ReadXvg.DihresFlatStops | cpc/lib/swarms/readxvg.py:53-61 | the intended reader stops at the first failing line |
| ReadXvg.DihresFlatBeforeSection | cpc/lib/swarms/readxvg.py:53-57 | lines before the section header contribute nothing |
| ReadXvg.DihresFlatReadsSection | cpc/lib/swarms/readxvg.py:44-63 | a section header followed by value and ';' comment lines yields exactly the values, in order |
| ReadXvg.HeaderOnlyFile | cpc/lib/swarms/readxvg.py:54-61 | a file holding only the header fails as written and yields no values as intended |
| ReadXvg.ReadDihresFlat | cpc/lib/swarms/readxvg.py:44-63 | the reading loop computes the intended reader's values or its error |
| ReadXvg.DihresStep | cpc/lib/swarms/readxvg.py:88-104 | a line never changes which residues have entries |
| ReadXvg.ChainRead | cpc/lib/swarms/readxvg.py:82-104 | reading one chain's file keeps the residues, or fails at a line of it |
| ReadXvg.ChainReadStops | cpc/lib/swarms/readxvg.py:88-104 | reading a chain stops at its first failing line |
| ReadXvg.PhiStep | cpc/lib/swarms/readxvg.py:95-97 | a phi value starts a new chain entry for the current residue |
| ReadXvg.PsiStep | cpc/lib/swarms/readxvg.py:98-101 | a psi value completes the current chain entry and moves to the next residue |
| ReadXvg.ChainLine | cpc/lib/swarms/readxvg.py:88-104 | one iteration of the line loop computes the specified step |
| ReadXvg.ReadChain | cpc/lib/swarms/readxvg.py:82-104 | the loop over a chain's lines computes the specified dictionary or error |
| ReadXvg.EmptyPerResidue | cpc/lib/swarms/readxvg.py:74-76 | one empty list per selected residue |
| ReadXvg.DihresRead | cpc/lib/swarms/readxvg.py:70-106 | a successful read has exactly the selected residues; an error names the chain it occurred in |
| ReadXvg.DihresReadStops | cpc/lib/swarms/readxvg.py:78-104 | the first failing chain decides the error |
| ReadXvg.ReadDihres | cpc/lib/swarms/readxvg.py:70-106 | read_dihres computes the specified dictionary or error |
| ReadXvg.ChainBeforeSection | cpc/lib/swarms/readxvg.py:88-104 | lines before the section header change nothing |
| ReadXvg.ChainReadsSection | cpc/lib/swarms/readxvg.py:88-104 | a chain whose section holds a phi and a psi value per selected residue gives each residue its pair |
| ReadXvg.DihresReadsSections | cpc/lib/swarms/readxvg.py:70-106 | for well-formed files each selected residue holds one [phi, psi] pair per chain, in chain order, taken from that chain's section |
| Lambdas.SqDiff | cpc/lib/fe/utils.py:28 | the compared distance is never negative |
| Lambdas.FindClosest | cpc/lib/fe/utils.py:22-33 | -1 when no point is nearer than the start distance 2, otherwise the first point of least distance |
| Lambdas.ClosestUnique | cpc/lib/fe/utils.py:22-33 | the answer is determined by the path and lambda |
| Lambdas.ExactPointFound | cpc/lib/fe/utils.py:22-33 | a point lying exactly at lambda is never passed over: the answer is it or an earlier point at distance zero |

## Left out

- Networking, threads and locks. Every `with self.lock` is dropped and each operation is modelled as one atomic step. The heartbeat thread started by the `RunningCmdList` constructor and `heartbeatServerThread` (heartbeat.py:112-116, 262) are not modelled.
- Clocks. `time.time()` is a parameter `now`. `checkHeartbeatTimes` reads the clock twice (heartbeat.py:238 and 240); the model uses one instant for both.
- File and XML I/O.
  - `Command._writeXML`/`writeXML`, every `toJSON`, `readState`/`writeState` and the SAX readers are not modelled.
  - `tryRead` and `write` are not modelled, apart from the filter `write` applies, which is `Configuration.Conf.WrittenValues`.
  - `Conf.get`/`Conf.set` (conf_base.py:298-324) are not modelled: `set` writes the configuration file.
  - `getExecutablesPath` (conf_base.py:411-423) reads the environment and is not modelled.
  - The readers in `readxvg.py` take the lines of a file instead of opening it. The `'%s%d.itp'` file naming of `read_dihres` is not modelled. Python exceptions from `float()`, `int()` and indexing collapse into one error value naming the failing line.
  - The file-reading part of `tune` (tune.py:62-72) is not modelled; the box edges and the atom count are inputs.
  - `reparametrize`'s reading of the swarm files and the averaging of their points (reparametrize.py:89-141) are not modelled; the averages are an input.
- `rep.cc` input and output. stdin is a sequence of lines; stdout is the sequence of values printed, a `seq<real>`. The six-decimal text that `printf("%f\n", ...)` writes for each value (rep.cc:126-131) is not modelled. A failed `%f` scan leaves a value the model takes from an unconstrained parameter.
- Floating point. Coordinates, times and box edges are real numbers, with no IEEE rounding. The square root is a parameter that is only known to be non-negative and zero exactly at zero.
- Lambdas.ExactPointFound: states that the chosen point lies at distance zero, not that it equals the lambda; the solver does not conclude x == 0 from x * x == 0 over the reals.
- Random identifiers. `Command.tryGenID` (sha1 of random data) is not modelled.
- `CmdQueue` leaves:
  - `_exists`/`exists`: they call `itervalues()` on a list and cannot run.
  - `indexOfCommand`: a test helper.
- CmdQueue.CmdQueue.Activate: on an item that was never given to `setQueue`, `self.cmdQueue` does not exist and `QueueableItem.activate` raises `AttributeError`. In the model, activating an item the queue does not hold changes only its flag.
- Identity and ordering of Python objects.
  - Items, commands and nodes are compared by identity, and dictionary iteration order is a ghost sequence the methods choose.
  - A `Node` is a value inside the `Nodes` table. Priority written through another reference to the same `Node` object is not modelled, nor are `Node.nodes` and `workerStates`.
  - `RunningCommand` entries are values in the heartbeat map, not shared objects.
  - `RunningCommand.ping` (heartbeat.py:73-75) has no member of its own; its update of `lastHeard` is part of `Heartbeats.PingItem`.
- `Platform` keeps a `runvars` field that no modelled operation reads; it is not modelled.
- The worker matcher's executable lookup (`ExecutableList.find`) is a function parameter.
- `RunningCmdList._handleFinishedCmd` and `getCmdList` in heartbeat.py hand the command on to code outside the model. `HandleFinished` models only the removal.
- `findRoute` runs on a value graph. Where the source would loop forever (no candidate left in the topology), the model answers `Diverges`.
- `Conf.getFile` follows `relTo` links. Where they form a cycle, the source loops forever and the model answers the `RelToCycle` error. The regular expression `ConfValue.set` checks is given by its language, a predicate on strings; regular-expression syntax is not modelled.
- The `Cache` class shares its state between all instances (the Borg pattern); the model has one cache object.
- ObjectCache.Cache.Get: answers `None` for a missing key. The source's `get` answers `False`, which a caller cannot tell from a stored `False`.
- Configuration.Conf.constructor: the table starts empty. The `_add` calls of `Conf.__init__` (conf_base.py:112-152) for hostname, global_dir, conf_dir, base_dir, conf_file and exec_base_dir read the host name, `$HOME` and `sys.argv[0]`, and are not modelled.
- The session's timestamp is a parameter, and `SessionHandler` keeps sessions by id in a map.
- Iterate: `getInput` is a map from input names to their lengths, and the `addConnection` calls of `connect` are returned as a list of wires.
- Keywords: the message constants (keywords.py:47-50) are not modelled.
- `getCache` (cache.py:61-63) returns the shared instance and is not modelled.
- VType: only the `BoolType` and `IntType` literal conversions are modelled. `FloatType`, `StringType`, `FileType`, the array and list types, `writeXML` and `jsonDescribe` are not modelled.
- Connection: `connect`, `disconnect`, `makeConnection` and the network-level effects of a connection are not modelled. The constructor's checks, the printers and the name splitter are modelled.
- The `RunVars` class documentation shows `${RUN_DIR}`. The pattern does not expand that form; `RunVariables.BracedNotExpanded` states this.
- RunVariables.RunVars.Expand: follows the corrected loop of the findings below, not the loop as written, which `RunVariables.ExpandStr` models.
- Heartbeats.RunningCmdList.CheckHeartbeatTimes: computes the corrected first-expiry estimate, not the estimate as written, which `Heartbeats.FirstExpiryAsWritten` models.
- Heartbeats.RunningCmdList.CheckHeartbeatTimes: returns the dead commands instead of calling `self.cmdQueue.add(rc.cmd)` on each (heartbeat.py:257); putting them back on the queue is left to the caller.
- Versions.Version.constructor: reads the string at its dots as documented, not at whitespace as written; `Versions.DottedVersionAsWritten` models the code as written.
- Versions.Version.CompareTo: uses the corrected comparison; `Versions.Compare` models the code as written.
- ReadXvg.ReadDihresFlat: follows the corrected reader; `ReadXvg.DihresFlatAsWritten` models the code as written, which fails on the section header line.
- Reparametrize.MapAdd: adds over the common prefix of the two points. On points of unequal dimension Python 2's `map(add, v1, v2)` pads the shorter one with None and raises TypeError; that error is not modelled.
- Reparametrize.SqDist: sums over the common prefix of the two points. On points of unequal dimension Python 2's `map(sub, v1, v2)` raises TypeError; that error is not modelled.
- Reparametrize.RepPts: requires all points of the path to have one dimension. The TypeError that `map` raises on points of unequal dimension is not modelled.
- Reparametrize.RunReparametrize: requires the start, the averages and the target to have one dimension. The TypeError the source raises on unequal dimensions is not modelled.
- VType.ItemListStr: indices are unbounded integers and always print as `[n]`. In Python 2, `int()` returns a `long` for an index of 2^63 or more; `isinstance(item, int)` is then false and the source prints `.n`. VType.ParseItemList returns such an index as an integer too, so the round trip VType.ParseItemListStr holds in the model for every index, and in the source only below 2^63.
- Text.ParseFloat: accepts decimal literals only. Python's `float()` also accepts "inf", "infinity" and "nan" in any case and with a sign; these are refused here. Text.ScanFloat likewise leaves out the hexadecimal, infinity and NaN forms of `sscanf`'s `%f`.

## Findings

| source | as written | input that shows it | evidently intended | confidence | as-written member | corrected member |
|---|---|---|---|---|---|---|
| cpc/server/command/resource.py:53-58 | `subtract` adds the other amount | a 4-core resource minus 1 core holds 5 cores | take the other amount away | high, not executed | Resources.SubtractAddsExample | Resources.AddThenSubtractRestores |
| cpc/dataflow/keywords.py:88-92 | the character test is inverted: a name is accepted exactly when it holds a disallowed character | "abc" is refused | accept a name made only of allowed characters | high, not executed | Keywords.ValidIdentifierRefusesPlain | Keywords.IntendedAccepts |
| cpc/server/command/version.py:51-54 | the second test `ov < sv` repeats the first, so `__cmp__` never answers -1 | 1.5 and 2.0 each compare greater than the other | answer -1 when the first differing component of self is smaller | high, not executed | Versions.CompareNotAntisymmetric | Versions.CompareCorrectedLess |
| cpc/server/command/version.py:30 | `split()` splits at whitespace, and `int()` refuses "4.5" silently | "4.5" reads as the empty list | split at dots, as the class documents | medium, not executed | Versions.DottedVersionIsEmpty | Versions.DottedVersionCorrected |
| cpc/command/runvars.py:61-78 | `foundMatch` is set only in the callback's local scope, so the loop runs once | the chain A = "$B", B = "$C", C = "x" expands "$A" to "$C" | repeat while a round replaced something, up to the bound | high, not executed | RunVariables.ExpandStopsAtTwoLevels | RunVariables.ExpandCorrectedFollowsChain |
| cpc/server/state/heartbeat.py:241-246 | the estimate is compared without the extra second it is set to, so it depends on dictionary order | bound 10 s and entries expiring at 9.5 s and 10.2 s give 11.2 s or 10.5 s | the least of the bound and one second past each live expiry | medium, not executed | Heartbeats.FirstExpiryAsWritten | Heartbeats.FirstExpiryCorrectedIsLeast |
| cpc/lib/gromacs/tune.py:73-75 | all three box edges are read from the first field | a 13 x 3 x 3 nm box counts 1000 cells | read the three edges from the three fields (40 cells) | high, not executed | Tune.CellsAsWrittenExample | Tune.BoxCellsFit |
| cpc/lib/swarms/readxvg.py:54-61 | the section header line is itself read as a value line | a file whose only line is "[ dihedral_restraints ]" fails | start reading values on the line after the header | high, not executed | ReadXvg.DihresFlatAsWrittenFailsOnHeader | ReadXvg.DihresFlatReadsSection |
