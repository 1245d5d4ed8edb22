# LPmud game driver: verified model

This project models the parts of the CD LPmud game driver that are hard to get right, and proves
what each of them is for. Every operation is proved against a plain meaning: a finite map, a
bag of alarms, a set of pages, a list of lines, the language of a pattern. `dafny verify
dfyconfig.toml` checks everything.

- **Regular expressions** (`Regexp*.dfy`). The two-pass compiler with tail patching and byte
  insertion emits the code of a syntax tree; the backtracking interpreter of that code
  terminates and finds exactly the matches of the tree; the shortcuts of `regexec` change
  nothing. A pattern has exactly one tree in normal form that shows it. Every group position
  reported is a match of that group.
- **Alarms** (`CallOut*.dfy`, `Clock.dfy`). The timing wheel refines a bag of alarms per object
  under every operation, including sweeps whose callbacks do anything; every due alarm is fired
  and its callback run, and nothing else happens. Alarms fire in order of due time over any run.
  The clock never runs backwards.
- **The BIBOP allocator** (`Bibop*.dfy`). Pages, medium blocks and small objects; what is handed
  out is aligned, large enough and never overlaps, over any run of `malloc` and `free`.
- **Function lookup** (`FunctionTable.dfy`, `SharedStrings.dfy`, `FunctionCache.dfy`). Interned
  strings with 16-bit counts, the function table of a program, and the global cache keyed by
  string addresses that may be used again: lookup by name is always right.
- **Mappings and arrays** (`Mapping*.dfy`, `ArraySets.dfy`, `Explode.dfy`). Hash tables that
  double refine finite maps; the array operators built on them equal the naive filters.
- **Saving and restoring values** (`Save*.dfy`). Reading in place undoes printing.
- **The line editor** (`Ed*.dfy`). The ring of lines under insertion, deletion, joining, moving
  and copying.
- **Interpreter kernels and random numbers** (`Switch.dfy`, `Closures.dfy`, `Rand48.dfy`).

Memory with pointers is a map from addresses where addresses may be reused, except where a
list is only walked and relinked; such a list is a sequence. Every list kept as a sequence is
noted below. Integers are unbounded except where a width is written out.

## Findings

Where the code does less than its documentation or its evident purpose, the model keeps the
code as it is, and a member states when it does what it should.

- `call_out` returns at once when the clock is exactly at the next tick to be served, so alarms
  due at that tick wait for the next call (`CallOut.Scheduler.CallOut`,
  `CallOut.LeftForTheNextTick`).
- `set_current_time` does not move its base far enough when the system's clock is set back, and
  then runs ahead by a second with every call (`Clock.RunsAhead`).
- `remove_mapping` fails on a mapping that would keep more than 10240 keys, although such a
  mapping can be made (`Mapping.RemoveMapping`, `Mapping.RemovalFails`). A mapping that large,
  or an array of more than 5000 elements, cannot be restored either (`SaveRoundTrip.RoundTrip`).
- Adding a key to a full mapping raises an error and still leaves the key behind
  (`Mapping.Mapping.Put`, `Mapping.InsertionFails`).
- A carriage return in a saved string comes back as a newline, and keys that become equal by
  this are merged (`SaveRoundTrip.RoundTrip`). A value comes back unchanged exactly when it has
  none and is not too large (`SaveRoundTrip.Restored`).
- `malloc` passes the size of a large request on as an `unsigned int`: of a request of 4 GiB or
  more only the low 32 bits are served (`BibopMalloc.Allocator.Malloc`).
- Applying a closure in two steps is not the same as in one when there are holes among the first
  arguments (`Closures.FillTwiceExactly`).
- `explode` drops a delimiter at the end of the string (`Explode.BackExactly`).
- A numeric `switch` truncates the difference of value and label to 32 bits and misses a case
  exactly when a label on the way to it is too far from the value (`Switch.BinCase`,
  `Switch.MissedCase`).

## Model

| member | source | states |
|---|---|---|
| RegexpSyntax.Tokenize | src/regexp.c:255-294 | The scanning loop turns a pattern that does not end in a lone backslash into its tokens, or refuses exactly the patterns with `\{` or `\}` |
| RegexpSyntax.TokensAreGood | src/regexp.c:255-294 | No token of any pattern is the terminator, and none has a NUL as its low byte |
| RegexpSyntax.ScannedBack | src/regexp.c:255-294 | Every list of tokens can be written as a pattern, operators plain or behind a backslash as the mode wants, and is scanned back |
| RegexpSyntax.AllWritable | src/regexp.c:255-294 | ... and whatever is scanned is such a list |
| RegexpSyntax.Escapes | src/regexp.c:275-288 | A backslash and b, t or r stand for backspace, tab and carriage return; braces behind a backslash are refused; every other character stands for itself |
| RegexpSyntax.ParseAltsGood | src/regexp.c:369-620 | Every tree the grammar accepts has expandable bracket bodies, non-empty literals, group numbers below ten, and stars only over operands with HASWIDTH |
| RegexpShow.PatternShown | src/regexp.c:369-620 | The tree of an accepted pattern is in normal form (literals as long as they can be, a starred literal one character, bracket bodies that end where the scan ends, groups numbered from 1 in order of their parentheses, fewer than ten) and written out again is the pattern, token by token |
| RegexpShow.OneTree | src/regexp.c:369-620 | The pattern is accepted with a given tree if and only if that tree is in normal form and written out is the pattern: every such tree is parsed back, and no two show the same pattern |
| RegexpShow.AltsBack | src/regexp.c:369-430 | Inside a pattern: alternatives in normal form written out are parsed as themselves, to their end |
| RegexpShow.AltsShown | src/regexp.c:369-430 | The same for alternatives inside a pattern: exactly the tokens consumed are the tree written out |
| RegexpCompile.Compiler.RegC | src/regexp.c:648-655 | A byte is appended in the emit pass and counted in the sizing pass |
| RegexpCompile.Compiler.RegNode | src/regexp.c:625-643 | A node with an empty next pointer is appended or counted |
| RegexpCompile.Compiler.RegInsert | src/regexp.c:662-683 | A node is put in front of an operand, whose bytes are moved up by three in place |
| RegexpCompile.Compiler.RegTail | src/regexp.c:688-712 | The last node of a chain, and no other byte, comes to point at the given node |
| RegexpCompile.Compiler.RegOpTail | src/regexp.c:717-725 | The same on the operand of a BRANCH; nothing for other nodes |
| RegexpCompile.Compiler.RegNext | src/regexp.c:1085-1101 | The node a next pointer leads to: forwards, backwards from a BACK node, none for an offset of 0 and in the sizing pass |
| RegexpCompile.Compiler.RegClass | src/regexp.c:545-579 | A bracket expression is accepted and compiled to the bytes it stands for, ranges expanded, exactly when the grammar has it |
| RegexpSyntax.ClassMeaning | src/regexp.c:552-572 | A bracket expression is accepted if and only if each of its ranges rises, and stands for exactly the characters that are one of its tokens or lie in one of its ranges, ends included; a minus is a range unless it comes first, last or ends a range |
| RegexpSyntax.RangeHas | src/regexp.c:561-567 | What is emitted for a range behind its lower end is every byte above that end up to the upper one |
| RegexpCompile.Compiler.RegLiteral | src/regexp.c:592-616 | The longest run of ordinary characters, less its last one when a star follows, becomes one node |
| RegexpCompile.Compiler.RegAtom | src/regexp.c:520-620 | One atom: fails exactly when the grammar fails, else consumes what the grammar consumes and emits or sizes the code of that tree, with the right HASWIDTH and SIMPLE flags |
| RegexpCompile.Compiler.Loop | src/regexp.c:498-505 | A star over an operand that is not SIMPLE is turned in place into BRANCH, operand, BACK, BRANCH, NOTHING, with all pointers tied |
| RegexpCompile.Compiler.RegPiece | src/regexp.c:475-511 | The same for an operand and its star |
| RegexpCompile.Compiler.RegBranch | src/regexp.c:438-465 | The same for a concatenation, its pieces chained |
| RegexpCompile.Compiler.Reg | src/regexp.c:369-431 | The same for alternatives, in parentheses or not: every branch tied to the ender and to the next branch |
| RegexpCompile.CompileTokens | src/regexp.c:295-319 | Both passes together: accepted exactly when the grammar accepts and the code is small enough; the bytes are the code of the tree and fill the allocation exactly |
| RegexpCompile.CompilePattern | src/regexp.c:238-319 | The same from the pattern text |
| RegexpMeaning.AltsConsume | src/regexp.c:398-410 | HASWIDTH is right: alternatives that have it never match the empty string |
| RegexpMeaning.AtomConsumes | src/regexp.c:492-493 | Nor does an atom that has it, so each trip through a star consumes input |
| RegexpMeaning.FirstSound | src/regexp.c:845-1034 | What the backtracking search finds is a match in the meaning of the pattern, for every pattern and text |
| RegexpMeaning.FirstComplete | src/regexp.c:845-1034 | If the pattern has a match from a position, the search from there finds one |
| RegexpMeaning.SearchDecides | src/regexp.c:845-1034 | So the search succeeds at a position if and only if a match starts there |
| RegexpMeaning.FirstBranch | src/regexp.c:977-989 | Of alternatives the search takes the first that leads to a match of everything after it |
| RegexpMeaning.Greedy | src/regexp.c:991-1027 | A star over one character takes as many as it can so that the rest still matches |
| RegexpMeaning.GoesAround | src/regexp.c:498-505 | A star over anything else goes around once more, consuming something, if that leads to a match, and otherwise stops |
| RegexpMatch.Matcher.RegRepeat | src/regexp.c:1039-1079 | How many times in a row a simple operand matches |
| RegexpMatch.Matcher.RegMatch | src/regexp.c:845-1034 | The interpreter of the bytecode, loops, recursion and all, terminates and finds what the search finds, with the same end and the same group positions |
| RegexpMatch.Matcher.TryStar | src/regexp.c:991-1027 | A star takes as many as it can and gives back one at a time, skipping with the look-ahead character only counts that cannot succeed |
| RegexpExec.RegTry | src/regexp.c:809-829 | One attempt at a position, the ten start and end pointers set |
| RegexpExec.FindMust | src/regexp.c:768-778 | The search for the must-appear string finds it if and only if it occurs |
| RegexpExec.RegExec | src/regexp.c:753-804 | With the must-appear, anchor and first-character shortcuts the result and all positions are those of trying every position in order |
| RegexpExec.LiteralStart | src/regexp.c:330-332 | A program that starts with a literal only matches where its first byte is |
| RegexpExec.AnchorStart | src/regexp.c:333-334 | A program that starts with `^` only matches at the beginning |
| RegexpExec.TextContained | src/regexp.c:344-354 | A literal on the top level occurs in every text that matches |
| RegexpExec.LongestLiteral | src/regexp.c:344-353 | What is dug out of the code is such a literal |
| RegexpExec.RegComp | src/regexp.c:238-358 | A compiled expression carries the code of its tree and shortcuts that hold of its meaning |
| RegexpExec.InOrderLeftmost | src/regexp.c:795-800 | Trying positions in order finds the leftmost match if there is any match at all |
| RegexpExec.MatchPattern | src/regexp.c:238-358 | End to end: for every accepted pattern and every text, success exactly when some position starts a match of the tree in normal form that shows the pattern; the start is the leftmost such position, the stretch reported matches, and every group with a position has both, inside that stretch, and its alternatives match there |
| RegexpGroups.Captures | src/regexp.c:925-977 | In a match a group has a start if and only if it has an end; the stretch between lies inside the match and is matched by the alternatives of that very group, stars, alternatives and backtracking notwithstanding |
| RegexpGroups.FirstCaught | src/regexp.c:845-1034 | The same at any point of the search: what is left of a group that is open matches up to the end noted for it, unless the group begins again later |
| CallOut.Scheduler.constructor | src/call_out.c:119-131 | The empty wheel satisfies the invariant |
| CallOut.Scheduler.InsertCall | src/call_out.c:196-232 | An alarm is added in due-time order, and its object moves to the slot of its new earliest alarm if that changed |
| CallOut.Scheduler.NewCallOut | src/call_out.c:245-278 | A new alarm lies at least one tick ahead, in front of those of its object due at the same time, and is the only change; with 128 alarms pending all of them are deleted and an error is raised; the wheel invariant is kept |
| CallOut.Scheduler.DeleteCall | src/call_out.c:280-318 | The alarm of that id, and nothing else, goes; the object is hung up anew; the wheel invariant is kept |
| CallOut.Scheduler.DeleteAllCalls | src/call_out.c:320-342 | All alarms of the object go, and it leaves its slot |
| CallOut.Scheduler.SwapObjects | src/call_out.c:144-194 | Two objects exchange their alarms and their places on the wheel |
| CallOut.Scheduler.FireHead | src/call_out.c:519-575 | The first alarm of the object at the head of the current slot is taken; it is due exactly at the tick being served; a repeating one is put back for later in its place |
| CallOut.Scheduler.Sweep | src/call_out.c:510-620 | With callbacks that add, delete, swap or fail in any way the sweep terminates, and the log gains exactly its rounds: one alarm fired, due at its tick with nothing due earlier; then the events of its own callback up to the first failure; then the alarm turned off, if and only if it repeats, the callback has failed and it is still there. Every alarm due at the start is fired, unless it is deleted first |
| CallOut.NoneLeft | src/call_out.c:510-620 | Over any run that leaves nothing due, each alarm that was due, followed through swaps, has been fired or deleted |
| CallOut.Scheduler.RunCallback | src/call_out.c:556-602 | A callback does its operations in order up to the first that fails, and leaves the events of those and no others |
| CallOut.OnlyStays | src/call_out.c:576-589 | Ids are never given out again: while a callback runs no other alarm can come to have the id of the one being served |
| CallOut.Scheduler.NextCallOut | src/call_out.c:442-477 | The time to sleep is the time to the earliest alarm if under 60 seconds and 60 seconds otherwise, although only the heads of slots are looked at |
| CallOut.Scheduler.CallOut | src/call_out.c:479-622 | The log gains exactly the rounds of a sweep, or nothing; afterwards nothing due is pending, if and only if the clock was not exactly at the tick to be served next or nothing was due at it |
| CallOut.LeftForTheNextTick | src/call_out.c:494-504 | A run in which an alarm due now is left pending by that early return |
| CallOut.FiringOrder | src/call_out.c:510-620 | Over any run of the scheduler, alarms fire in the order of their due times |
| CallOut.NeverLost | src/call_out.c:144-342 | Over any run, an alarm that is neither fired nor deleted stays pending, at the object to which the swaps have taken it |
| CallOut.StaysLater | src/call_out.c:268-271 | Over any run, once nothing is pending before a time nothing ever is again |
| CallOutWheel.Linked | src/call_out.c:224-231 | Linking an object in front of the first one due later keeps every slot right |
| CallOutWheel.Unlinked | src/call_out.c:213-222 | Unlinking one does, too |
| Clock.AlarmClock.SetCurrentTime | src/port.c:123-142 | The new time is one step of the clock and not before the last one |
| Clock.WholeTicks | src/port.c:132-133 | What is shown is the number of whole tenths of a second since the base |
| Clock.NeverBackwards | src/port.c:120-142 | Over any run, whatever the system's clock does, the alarm time never moves backwards |
| Clock.Faithful | src/port.c:134-139 | It shows the time since its base if and only if that is not behind what it has shown |
| Clock.RunsAhead | src/port.c:136-140 | After the system's clock is set back, each further call at the same time of day advances the alarm clock by a second |
| BibopPages.PageStore.InsertFreePage | src/bibopmalloc.c:196-239 | Pages come back: the free list is again sorted, disjoint and joined as far as possible, and holds exactly the free pages |
| BibopPages.PageStore.Pages | src/bibopmalloc.c:242-334 | Best fit if any run is large enough; else the last run is extended if it ends at the break; else the break moves; the pages were idle; failing changes nothing and happens exactly when memory is refused and no run fits |
| BibopPages.Canonical | src/bibopmalloc.c:196-239 | Two coalesced lists of the same pages are the same list |
| BibopPages.Conserved | src/bibopmalloc.c:100-161 | The pages of the four uses add up to all pages |
| BibopBlocks.BlockStore.InsFree | src/bibopmalloc.c:337-360 | A block goes on the one list for its size, whatever the limits are; the abort is unreachable |
| BibopBlocks.BlockStore.InitAllocPage | src/bibopmalloc.c:363-387 | A new page is one free block up to the sentinel |
| BibopBlocks.BlockStore.FindBlock | src/bibopmalloc.c:431-448 | A block is found if and only if one large enough is free, and on the lowest list that has one |
| BibopBlocks.BlockStore.Carve | src/bibopmalloc.c:460-520 | The block is split exactly if enough is left over, then has the size asked for and a header while the rest is a free block of its own; else it is taken whole; so it exceeds the request by at most 56 bytes. Other busy blocks keep their sizes, the page stays tiled, and the lists hold exactly the free blocks |
| BibopBlocks.BlockStore.Release | src/bibopmalloc.c:654-717 | The block is free, other busy blocks keep their sizes, no two neighbours are both free, and the page stays tiled; the aborts are unreachable |
| BibopBlocks.BlockStore.DropPage | src/bibopmalloc.c:724-739 | A wholly free page leaves the lists |
| BibopBlocks.BlockStore.CarveAndRelease | src/bibopmalloc.c:460-717 | Taking a block and giving it back leaves every page exactly as it was |
| BibopBlocks.OneTiling | src/bibopmalloc.c:337-717 | A page is determined by its busy blocks |
| BibopSmall.LowestBit | src/bibopmalloc.c:582-600 | The halving search finds the lowest bit that is set in any word |
| BibopSmall.Layout | src/bibopmalloc.c:846-852 | The iteration for the number of objects and bitmap words terminates for every size, and both fit on the page |
| BibopSmall.FilledMap | src/bibopmalloc.c:863-870 | The new bitmap has exactly the bits of the objects set |
| BibopSmall.SmallStore.FindBag | src/bibopmalloc.c:556-557 | A page with a free object of the size is found if and only if there is one |
| BibopSmall.SmallStore.NewBibop | src/bibopmalloc.c:834-872 | A new page of free objects only |
| BibopSmall.SmallStore.TakeObject | src/bibopmalloc.c:566-608 | Exactly one object that was free is taken; the search comes around to it and the abort is unreachable |
| BibopSmall.SmallStore.PutObject | src/bibopmalloc.c:742-755 | Exactly the object at the address becomes free |
| BibopMalloc.Allocator.Malloc | src/bibopmalloc.c:544-609 | There is room at an address where nothing was handed out, and every other address is as before; it fails if and only if memory is refused and no free object, block or run of pages is large enough, and takes no page if an object or block is at hand; the room is exact for small and large requests and at most 56 bytes more for others; it is enough for the request if and only if the rounded request is below 2^32, since a large one is cut to 32 bits |
| BibopMalloc.Allocator.MallocMedium | src/bibopmalloc.c:390-520 | A block is taken from the lowest list that has one large enough; only if none is, a page is got |
| BibopMalloc.Allocator.Free | src/bibopmalloc.c:624-761 | The room at the address is gone and every other address is as before; freeing the null pointer does nothing |
| BibopMalloc.Allocator.RoomsApart | src/bibopmalloc.c:390-761 | After any run the stretches handed out never overlap, whether small, medium or large |
| BibopMalloc.Allocator.RoomClear | src/bibopmalloc.c:363-872 | Nor do they ever meet a byte that is the allocator's own: block headers and sentinels, page descriptors and bitmaps, free blocks, and free pages |
| BibopMalloc.Allocator.RoomKind | src/bibopmalloc.c:390-609 | They are aligned and lie within their page or run of pages |
| BibopMalloc.Allocator.PagesConserved | src/bibopmalloc.c:100-161 | p_bibop + p_alloc + p_big + p_free is the number of pages obtained |
| FunctionTable.HashFunc | src/postlang.y:2379-2450 | The table built in place holds every function, on the chain of its own slot in order, with each function's slot recorded |
| FunctionTable.PlaceAll | src/postlang.y:2402-2431 | First pass: the free slots stay a doubly linked list and the functions that found their slot taken are chained in order |
| FunctionTable.PlugAll | src/postlang.y:2432-2448 | Second pass: the waiting functions fill exactly the free slots, each at the end of its chain |
| FunctionTable.Probe | src/interpret.c:7349-7364 | Following a chain finds the first function of that name if and only if there is one, even from a slot inside another chain |
| SharedStrings.StringTable.Find | src/mstring.c:159-192 | The string of that text if there is one, now first on its chain; nothing but links changes |
| SharedStrings.StringTable.Make | src/mstring.c:194-247 | The one string of that text gains a holder, or a new one is made if there was none; texts stay pairwise different |
| SharedStrings.StringTable.Reference | src/mstring.c:142-157 | A holder more; the count is the number of holders, and sticks at 0 only with the 65536th |
| SharedStrings.StringTable.Free | src/mstring.c:249-278 | Memory is freed if and only if the caller was the last holder and the count has never run over |
| SharedStrings.RunUses | src/mstring.c:142-278 | Any run of holds and releases in which no text ever has 65536 holders: in memory are just the texts that are held, each once and with its exact count, whatever addresses are used again |
| SharedStrings.MovedToFront | src/mstring.c:177-186 | Moving a string to the front keeps every chain linked both ways |
| SharedStrings.Dropped | src/mstring.c:261-275 | So does taking one out |
| SharedStrings.Inserted | src/mstring.c:231-239 | So does putting one in |
| FunctionCache.Driver.SFF | src/interpret.c:7268-7405 | What the cache says, hit or cached miss, is what the search finds |
| FunctionCache.Driver.Uncached | src/interpret.c:7340-7370 | The loop over inherited programs is the most-derived-first search |
| FunctionCache.Driver.SearchForFunction | src/interpret.c:7407-7411 | The function of that name in the most derived program that has one, or none if none has, whatever strings and programs have come and gone |
| FunctionCache.SearchFinds | src/interpret.c:7340-7370 | Searching by address is searching by text, since live names are interned |
| FunctionCache.Driver.LoadProgram | src/binaries.c:559-593 | A program gets a number never used before and holds its names; cache and other programs stay right |
| FunctionCache.Driver.FreeProgram | src/object.c:1243-1258 | A program no other inherits releases its names; cache entries of others stay right, its own can never be hit again |
| FunctionCache.Driver.MakeString | src/mstring.c:194-247 | Anybody making a string becomes a holder of it, and programs and cache stay right |
| FunctionCache.Driver.FreeString | src/mstring.c:249-278 | Anybody releasing a string, whose address may be used again if that was the last holder, leaves programs and cache right |
| Mapping.Mapping.constructor | src/mapping.c:77-98 | A power of two of chains, with room for the pairs asked for before the first doubling unless the table is the largest |
| Mapping.Mapping.FindPair | src/mapping.c:146-152 | The pair of a key is found in the one chain looked at, if and only if the key is there |
| Mapping.Mapping.Lookup | src/mapping.c:140-166 | The value of the key in the finite map, or none |
| Mapping.Mapping.Rehash | src/mapping.c:301-331 | Moving every pair into a table twice as large changes nothing in the contents; it fails exactly when the table would be too large |
| Mapping.Mapping.Put | src/mapping.c:140-166 | The finite map is updated; a new key fails exactly when the table is full and can grow no more, and then stays behind with the value 0 |
| Mapping.Mapping.AddTo | src/mapping.c:262-273 | The union with the second mapping prevailing, a mapping added to itself included; fails exactly when there is a new key and the union exceeds the capacity; after a failure some of the pairs are in, every other key is as it was, and one key is there that should not be, with the value 0 |
| Mapping.AddMapping | src/mapping.c:240-260 | The right-biased union, exactly when it has at most 20480 keys |
| Mapping.RemoveMapping | src/mapping.c:275-299 | All but one key, exactly when at most 10240 remain: a mapping that was allocated larger cannot have a key removed |
| Mapping.RemovalFails | src/mapping.c:269-295 | A run: two mappings are added, and no key can be removed from the sum |
| Mapping.InsertionFails | src/mapping.c:155-195 | A run: a key put into a full mapping, an error, and the key is there |
| Mapping.CopyMapping | src/mapping.c:334-354 | The same contents in a table of the same size |
| Mapping.FilterMap | src/mapping.c:388-416 | Exactly the pairs whose value is accepted |
| Mapping.MakeMapping | src/mapping.c:199-238 | The pairs of two arrays, later ones replacing earlier ones; without keys the key of each value is its index; without values the value of each key is its last index; never fails |
| Mapping.ZippedLast | src/mapping.c:213-218 | Of equal keys the last one's value remains |
| MappingTable.PairsCounted | src/mapping.c:100-104 | card is the number of pairs in all chains |
| MappingTable.MetAll | src/mapping.c:249-258 | A walk over all chains meets every pair of the mapping |
| MappingTable.NotMet | src/mapping.c:249-258 | ... and none twice |
| ArraySets.SetManipulate | src/array.c:618-677 | `-` and `&` are the elements of the first array that are not, or are, in the second, in order and with repetitions |
| ArraySets.UnionArray | src/array.c:691-740 | The union is the first array and the elements of the second that are not in it; an error exactly when that is too large |
| ArraySets.Select | src/array.c:651-673 | The naive filter keeps every occurrence of what it keeps |
| ArraySets.SelectConcat | src/array.c:651-673 | ... and their order: filtering two arrays end to end is filtering the one and then the other |
| Explode.ExplodeString | src/array.c:98-202 | The pieces between delimiters found from left to right, a last empty piece dropped, or the letters for an empty delimiter; an error exactly when an array cannot hold them; never more than were counted |
| Explode.ImplodeString | src/array.c:204-244 | The strings of the array joined, in a buffer of exactly their size |
| Explode.ImplodeExplode | src/array.c:98-244 | Imploding what was exploded gives the string, less a delimiter it ends in |
| Explode.BackExactly | src/array.c:192-200 | ... so it gives the string back if and only if the scan does not end on a delimiter |
| Explode.PiecesClean | src/array.c:155-200 | Every piece goes up to the first delimiter behind the piece before it: with that delimiter behind it no other begins in it |
| Explode.LettersAre | src/array.c:114-126 | An empty delimiter gives the letters, one each and all of them |
| SaveObject.SaveBuf.AddStr | src/object.c:54-73 | The text is appended to the buffer, which grows as needed |
| SaveObject.SaveBuf.SaveString | src/object.c:80-111 | A string is appended with quotes, backslashes and newlines escaped |
| SaveObject.SaveBuf.SaveArray | src/object.c:116-128 | The printed array is appended |
| SaveObject.SaveBuf.SaveMapping | src/object.c:130-148 | The printed mapping is appended |
| SaveObject.SaveBuf.SaveOne | src/object.c:150-188 | The printed value is appended, for every nested value |
| SaveText.OneLine | src/object.c:80-188 | However values are nested and whatever their strings hold, the print has no newline: a saved value is one line |
| SaveText.ExampleNested | src/object.c:116-188 | The print of a mapping in an array, character by character |
| SaveObject.RestoreString | src/object.c:556-584 | Escapes are resolved in place without the write cursor overtaking the read cursor: the result is that of the text as it was, and the text not yet read is untouched |
| SaveObject.RestoreArray | src/object.c:421-470 | The same for arrays |
| SaveObject.RestoreMapping | src/object.c:472-511 | The same for mappings |
| SaveText.PutAt | src/object.c:486-500 | A key that is read again gets the new value, and any other key comes last |
| SaveObject.RestoreOne | src/object.c:514-639 | The same for any value, within the bounds of the buffer on any text that ends in NUL |
| SaveRoundTrip.RoundTrip | src/object.c:54-639 | Reading a printed value consumes exactly the print and gives the value with carriage returns turned to newlines, or is refused exactly when an array or mapping in it is too large to be made again |
| SaveRoundTrip.Restored | src/object.c:54-639 | A value comes back unchanged if and only if it has no carriage return and no key twice, and nothing in it is too large |
| SaveRoundTrip.FixPlain | src/object.c:569-574 | Turning carriage returns to newlines leaves a value without them alone |
| SaveRoundTrip.PlainOnly | src/object.c:569-574 | ... and no other value |
| SaveObject.SaveAndRestore | src/object.c:404-416 | Saving into a buffer and restoring in place from it does just that |
| Ed.Buffer.constructor | src/ed.c:1311-1317 | The empty ring |
| Ed.Buffer.GetPtr | src/ed.c:946-962 | The line of that number, by the shorter way around |
| Ed.Buffer.SetCurLn | src/ed.c:308-308 | Number and pointer of the current line stay in step |
| Ed.Buffer.NextCurLn | src/ed.c:309-309 | One line on, around the end |
| Ed.Buffer.PrevCurLn | src/ed.c:310-310 | One line back, around the beginning |
| Ed.Buffer.Ins | src/ed.c:1057-1086 | The lines of a text go in after the current line, and the last of them becomes current; the ring stays linked both ways |
| Ed.SplitBack | src/ed.c:1057-1086 | The lines a text goes in as, with newlines between them, are the text |
| Ed.Buffer.Del | src/ed.c:475-495 | Exactly the lines of the range are taken out and freed |
| Ed.Buffer.Join | src/ed.c:1091-1135 | The lines become one, leading blanks replaced by one; refused exactly when the range is bad or the result does not fit a line |
| Ed.JoinedLines | src/ed.c:1105-1128 | The first line is kept as it is; each further one is added from its first character that is not blank on, behind one blank, or not at all if it is all blank |
| Ed.Append | src/ed.c:1109-1126 | The inner loop adds a line to the buffer exactly as that says, within its bounds |
| Ed.Buffer.MoveBlock | src/ed.c:1143-1169 | Exactly cut and paste of the range, refused exactly when the target is inside it |
| Ed.Buffer.Transfer | src/ed.c:1172-1201 | Exactly a copy of the range after the target, be it before, inside or after the range |
| EdRing.CutOk | src/ed.c:1157-1157 | Cutting a block out closes the ring and keeps the block linked |
| EdRing.PasteOk | src/ed.c:1162-1165 | Pasting a linked block in gives a ring again |
| Switch.Search | src/interpret.c:5527-5583 | The binary search over single and range entries jumps where a scan of all entries would |
| Switch.BinIsScan | src/interpret.c:5527-5579 | Its window always starts and ends on whole entries, and nothing outside it can match |
| Switch.SwitchNumber | src/interpret.c:5505-5583 | A numeric switch over 32-bit labels goes to the default if no case holds the value, and to the case that holds it if and only if the difference of the value and each label compared on the way to that case fits 32 bits; anything but a number is an error |
| Switch.BinCase | src/interpret.c:5463-5583 | The exact condition: with the truncated difference the binary search reaches the case if the labels on the way down to it, which the shape of the table fixes, are near to the value, and the default if not |
| Switch.BinNoCase | src/interpret.c:5463-5583 | A value in no case always gets the default, truncation or not |
| Switch.AllNear | src/interpret.c:5463-5470 | In particular no case is missed if all labels are near to the value |
| Switch.SwitchString | src/interpret.c:5507-5521 | A string switch goes to the case that holds the string in the order of strcmp, or to the default if none does; the number 0 goes to the first entry, and anything else is an error |
| Switch.StrCmpLess | src/interpret.c:5512-5520 | The order of the labels is that of a dictionary: at the first difference the smaller character, or the end, comes first |
| Switch.MissedCase | src/interpret.c:5463-5470 | A table and a value whose case is missed |
| Closures.Papply | src/interpret.c:4828-4853 | The stored arguments with holes filled left to right and the surplus appended; an error exactly when an array cannot hold them |
| Closures.FillAt | src/interpret.c:4828-4853 | The k-th hole takes the k-th argument, what is stored stays in its place, and what is left over comes behind in order |
| Closures.CallVar | src/interpret.c:5050-5092 | The stack shuffle leaves just that above an untouched stack; refused exactly when there are more holes than arguments |
| Closures.Shuffle | src/interpret.c:5066-5089 | The three moves of the shuffle together |
| Closures.PushStored | src/interpret.c:5075-5082 | The stored arguments are pushed over the moved ones without overwriting any still to be read |
| Closures.FillTwice | src/interpret.c:4799-4857 | Partial application to A without holes and then to B is application to A and B |
| Closures.FillTwiceExactly | src/interpret.c:4799-4857 | ... for all B, whatever is stored, if and only if A has no holes |
| Rand48.NextOk | src/drand48.c:121-136 | The limb arithmetic computes (aX + c) mod 2^48 for all states and parameters |
| Rand48.Parameters | src/drand48.c:28-32 | a is 0x5DEECE66D and c is 0xB |
| Rand48.Generator.Next | src/drand48.c:121-136 | One step of the generator |
| Rand48.Generator.Drand48 | src/drand48.c:48-60 | The next value as a fraction of 2^48 |
| Rand48.Generator.Lrand48 | src/drand48.c:103-108 | The upper 31 bits of the next value |
| Rand48.Generator.Mrand48 | src/drand48.c:110-119 | The upper 32 bits of the next value, signed |
| Rand48.Generator.Seed48 | src/drand48.c:145-152 | The old state is returned, and parameters are reset |
| Rand48.Generator.Erand48 | src/drand48.c:37-62 | The generator's own state is unchanged; the outcome depends on the caller's seed and the parameters alone |
| Rand48.Generator.Nrand48 | src/drand48.c:163-163 | The same, with the upper 31 bits as the result |
| Rand48.Generator.Jrand48 | src/drand48.c:165-165 | The same, with the upper 32 bits, signed, as the result |
| Rand48.RunCalls | src/drand48.c:35-168 | After any sequence of the six calls the state is as many steps on as there were calls of the generator's own, whatever seeds the others used |

## Left out

- RegexpExec.MatchPattern: patterns that end in a lone backslash, for which the scanner runs past the terminating NUL; `regerror` messages; `regsub`.
- RegexpMeaning.FirstSound: word characters are ASCII letters, digits and the underscore; a locale is not modelled.
- CallOut.Scheduler.Sweep: a callback is any finite sequence of scheduler operations that may end in an error; closures, the command giver and evaluation cost are not modelled, and time and ids are unbounded. The lists of alarms and of objects in a slot are sequences.
- CallOut.Scheduler.SwapObjects: swapping an object with itself, which no caller does.
- Clock.RunsAhead: only for a base that the correction does not bring to 0, where the code takes a new base.
- BibopMalloc.Allocator.Malloc: a request of 0 bytes, for which the code indexes its table at -1; runs of pages of 2 GiB or more, whose byte counts overflow an `int`; sizes and offsets are those of a 64-bit machine; `realloc`, `calloc`, usage statistics and the computation of the list limits, which are any table whose last entry exceeds the largest block. Lists of pages and blocks are sequences, `sbrk` grants contiguous memory or refuses, and a bitmap word is a sequence of 64 bits.
- FunctionCache.Driver.SearchForFunction: the access flags computed for a function that is found; swapping programs out; reference counts of programs, of which only that an inherited program is not freed is assumed.
- SharedStrings.StringTable.Make: statistics counters; the 16-bit length field; the counterparts for unshared strings, which are the same counts without a table.
- Mapping.Mapping.Put: keys are numbers, strings and things compared by identity; destructed objects and signed float zeros, for which equal keys may hash differently, are excluded. `card` and sizes do not wrap around. Chains are sequences.
- Mapping.FilterMap: the function called on each value is a predicate without side effects on the copy being filtered, to which nothing else has access.
- SaveRoundTrip.RoundTrip: floats and object references. Text that ends in a backslash is read past its end by the code; the model stops there.
- SaveObject.SaveBuf.SaveOne: floats and object references are not values of the model.
- SaveObject.RestoreOne: floats and object references are not read; a final backslash, past which the code reads on, stops the reading.
- Ed.Buffer.Ins: running out of memory; marks, undo, global commands, substitution, indentation, and reading and writing of files.
- Switch.SwitchNumber: the compiler's construction of the table, of which only the order of the labels is assumed.
- Closures.CallVar: stack overflow, and composed closures, which call other closures first; values are opaque.
- Rand48.Generator.Drand48: the fraction as an exact real number.
- Everything else in the driver: the compiler proper, the object and inventory system, sockets, the parser of player commands, the other allocators, files.
