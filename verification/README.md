# Stack-trace engine of the 15-410 traceback library

This project models `traceback()`, a crash-time stack tracer for 32-bit x86
programs, and proves properties of the model. It covers four parts.

- **Walker.** The tracer follows the chain of saved base pointers from its
  own frame up towards `main`. For every frame it writes one line such as
  `Function foo(int x=3, char *s="hi"), in`.
- **Resolver.** A linear scan picks the function-table entry whose start
  address most closely precedes the frame's return address.
- **Argument renderers.** The declared arguments are read from the stack and
  rendered one per type. Strings are truncated to 25 characters, and string
  arrays are capped at 3 entries.
- **Memory probes.** Every dereference is guarded by a probe. In C the probe
  attempts the access under `sigsetjmp` and treats SIGSEGV as failure.

The model is organised as follows.

- `machine.dfy` (module `Machine`): a byte-addressed 32-bit address space
  with readable and writable byte sets, and little-endian words. The live
  memory is the class `AddressSpace`. Its write probe
  `CheckMemAddrWritable` really stores `DUMMY_VALUE` (10).
  `is_address_valid` is the predicate `IsAddressValid`: all four bytes of
  the word are readable. `check_valid_frame` is that same test. The walk
  applies it to the base pointer (`traceback/traceback.c:220`) and to the
  return address (`traceback/traceback.c:230`).
- `format.dfy` (module `Format`): `isprint` in the C locale, and the `%o`,
  `%x` and `%d` conversions of a 32-bit word. Each is proved to print
  canonical lowercase digits (no leading zero) that parse back to the
  value.
- `symbols.dfy` (module `Symbols`): the function table and
  `get_function_index`.
- `render.dfy` (module `Render`): the argument renderers, `build_string`,
  `is_string_printable`, `build_string_array` and `get_function_arguments`.
  Each C renderer writes at `buf + read_cnt` and returns the new offset.
  Here the per-type renderers (`CharArgText`, `IntArgText`, `FloatArgText`,
  `DoubleArgText`, `VoidPointerArgText`, `UnknownArgText`, `StringArgText`,
  `StringArrayArgText`) are functions that give the text appended. Only
  `BuildString`, `BuildStringArray`, `GetStringArgument`, `GetStringArray`
  and `GetFunctionArguments` take the buffer text and return it extended.
- `walker.dfy` (modules `Walker` and `WalkerProps`): the traceback loop, the
  per-frame argument loop and the properties of the whole walk.

Parameters stand in for everything outside the C file:
- `Env.returnAddr` is the `get_return_addr` primitive.
- The initial base pointer is an argument of `Traceback`.
- `Env.accepts(n)` says whether the n-th `Write` succeeds.
- `Libc.pointer` and `Libc.float` are libc's `%p` and `%f` text.
- The output is the sequence of lines written.

Each state-changing or looping routine is a method proved against a
specification function:
- `Traceback` against `Walk`/`WalkFrom`;
- `BuildFrameLine` against `ArgsLoop`/`FrameLine`;
- `BuildStringArray` against `StringArrayText`;
- `GetFunctionIndex` against `Resolve`.

The laws the source promises are proved about those functions.

Notable behaviours of the code:
- The `FATAL:Stack frame invalid/corrupt` text is formatted into the buffer
  after the loop (`traceback/traceback.c:355-359`), but the buffer is then
  freed without a `Write`. So the output contains only `Function` lines,
  although the comment above `traceback` (`traceback/traceback.c:145-171`)
  speaks of returning with a FATAL error.
- An unresolved frame prints `Function %p(...), in`, with libc's `%p` of
  the return address (`traceback/traceback.c:277`).
- An unreadable argument slot ends that frame's argument list and sets
  `frame_invalid`, but the walk continues with the next frame, although the
  comment on that branch (`traceback/traceback.c:319-321`) says the
  traceback terminates with a fatal error.
- When the unreadable slot is not the first one, the `", "` appended before
  the check is left in the line: `Function f(int a=1, ), in`
  (`traceback/traceback.c:309-310`, `traceback/traceback.c:323-324`).

## Model

| member | source | states |
|---|---|---|
| Machine.BytesRoundTrip | traceback/traceback.c:67-68 | assembling the four little-endian bytes of a word gives the word back, so a word load sees what a word store wrote |
| Machine.IsAddressValid | traceback/traceback.c:854-898 | definition: true exactly when all four bytes of the word at a are readable, i.e. when the 4-byte load that `is_address_valid` (and `check_valid_frame`, which calls it) makes does not fault |
| Machine.WritableIsValid | traceback/traceback.c:854-940 | where writable bytes are readable, a word the write probe can store to is also one `is_address_valid` accepts |
| Machine.StoreKeepsProbes | traceback/traceback.c:917-940 | the store the write probe makes never changes what either probe answers for any word |
| Machine.StoreThenLoad | traceback/traceback.c:917-940 | after storing w at a, loading a yields w, and a load whose four bytes do not overlap the store is unaffected |
| Machine.AddressSpace.CheckMemAddrWritable | traceback/traceback.c:917-940 | succeeds exactly when all four bytes at addr are writable; on success memory is the old memory with DUMMY_VALUE (10) stored at addr and reading addr gives 10; on failure memory is unchanged |
| Format.DigitsRoundTrip | traceback/traceback.c:502-516 | the unsigned octal/hex/decimal text of n is at least one character, every character a lowercase digit (`0`-`9`, `a`-`f`) below the base, with no leading zero unless it is "0", and it parses back to n |
| Format.SignedDecimalRoundTrip | traceback/traceback.c:529-537 | the %d text of a word starts with "-" exactly when its two's-complement value is negative, the rest is canonical decimal digits, and the whole parses back to that signed value |
| Symbols.ScanFrom | traceback/traceback.c:397-407 | the scan from index i stops at the first empty name, at FUNCTS_MAX_NUM or at the end of the table; every entry it passes has a non-empty name |
| Symbols.ScanCount | traceback/traceback.c:389-407 | entry 0 is always compared, whatever its name, so at least one entry is compared |
| Symbols.Closest | traceback/traceback.c:385-407 | the running choice is always one of the entries compared so far |
| Symbols.Resolve | traceback/traceback.c:383-416 | the result is -1 or the index of a compared entry |
| Symbols.ClosestIsNearest | traceback/traceback.c:385-407 | the choice is entry 0 when entry 0 is at distance 0; otherwise it has the smallest positive unsigned distance among compared entries, the earliest one on ties (strict `<`) |
| Symbols.ResolveIsNearestWithinBound | traceback/traceback.c:383-416 | -1 exactly when entry 0 is at distance 0 or no compared entry is at a positive distance below MAX_FUNCTION_SIZE_BYTES; otherwise the index of the nearest preceding function start within the bound, the earliest on ties |
| Symbols.GetFunctionIndex | traceback/traceback.c:383-416 | the loop with `temp` and `func_index` returns the resolver's answer: -1 or an in-range index at a positive distance below MAX_FUNCTION_SIZE_BYTES; the table is a value and is not modified |
| Render.CharArgDecodes | traceback/traceback.c:502-516 | `char name='c'` has one character between the quotes exactly when the whole word is printable, and otherwise a backslash followed by canonical octal digits; either way the quoted text decodes to the word |
| Render.IntArgDecodes | traceback/traceback.c:529-537 | `int name=` is followed by a "-" exactly when the word's signed 32-bit value is negative, then canonical decimal digits, and the text parses to that value |
| Render.FloatArgText | traceback/traceback.c:550-559 | definition: `float name=` followed by libc's %f text of the word's bits read as a 4-byte float |
| Render.DoubleArgText | traceback/traceback.c:572-581 | definition: `double name=` followed by libc's %f of the same 4-byte float, the same text the float renderer shows |
| Render.UnknownArgText | traceback/traceback.c:674-682 | definition: `UNKNOWN name=` followed by libc's %p of the word |
| Render.VoidPointerArgDecodes | traceback/traceback.c:653-661 | `void *name=0v` is followed by canonical lowercase hex digits (no leading zero) that parse to the word |
| Render.CStringTerminated | traceback/traceback.c:758-776 | a string read at p lies byte for byte, readable and NUL-free, at p, with a readable NUL after it |
| Render.TerminatedCString | traceback/traceback.c:758-776 | bytes lying readable and NUL-terminated at p are exactly the string read at p |
| Render.CStringIs | traceback/traceback.c:758-776 | the string at p is s exactly when s and its NUL lie readable at p (both directions) |
| Render.StringTextLaw | traceback/traceback.c:702-749 | a readable, wholly printable string appears in quotes: whole when it has at most 25 characters, otherwise exactly its first 25 characters and `...`; a fault or a non-printable byte shows the %p pointer instead |
| Render.IsStringPrintable | traceback/traceback.c:758-776 | reports a fault exactly when the string at p cannot be read to its NUL; otherwise true exactly when every byte before the NUL is printable (so the empty string is printable) |
| Render.BuildString | traceback/traceback.c:702-749 | appends exactly the text of the string law to the buffer; a fault while scanning is absorbed and shows the pointer |
| Render.Entries | traceback/traceback.c:800-827 | the element loop stops at a count between its start and the cap of 3 |
| Render.EntriesOfReadableElements | traceback/traceback.c:800-827 | from slot k >= 1, readable non-NULL elements up to the NULL slot (or the cap) are each appended after a ",", and the count stops at their number |
| Render.ArrayLaw | traceback/traceback.c:790-846 | when the first j <= 3 slots hold readable non-NULL pointers and slot j (if j < 3) holds NULL, the text is `{`, the j strings joined by ",", then `, ...` only if j = 3 and a readable non-NULL fourth pointer follows, then `}` |
| Render.UnreadableSlotRepeatsPrevious | traceback/traceback.c:800-827 | for any unreadable slot k >= 1: the slot's own address is printed, then, since the element pointer is not re-read, the previous element again after a "," and the loop goes on from slot k + 1 with it; had no element been read (NULL), the loop stops at k after the address |
| Render.UnreadableSecondSlot | traceback/traceback.c:790-846 | example of the whole array: slot 0 a string, slot 1 unreadable, slot 2 NULL gives `{`, the string, slot 1's address, ",", the string again, `}` |
| Render.EntriesLoopAppends | traceback/traceback.c:800-827 | the loop that appends to the buffer from slot k on appends exactly the element text Entries describes, and stops at the same count |
| Render.ArrayFinish | traceback/traceback.c:832-842 | after the loop, adding the `, ...` marker when it is due and then `}` completes exactly the array's text after the original buffer |
| Render.BuildStringArray | traceback/traceback.c:790-846 | appends exactly the array's text (`{`, at most 3 elements separated by ",", the `, ...` marker when due, `}`) to the buffer |
| Render.GetStringArgument | traceback/traceback.c:596-607 | appends `char *name=` and the string-law text of the pointer read from the slot |
| Render.GetStringArray | traceback/traceback.c:623-640 | appends `char **name=` and then the array text when the array pointer is readable, or `{%p}` of the pointer when it is not |
| Render.GetFunctionArguments | traceback/traceback.c:435-488 | appends exactly the text of the renderer for the argument's declared type (nothing for an unknown tag); float and double both render the 4-byte float |
| Walker.ActiveFrom | traceback/traceback.c:306-332 | the argument loop visits consecutive arguments with non-empty names, never more than ARGS_MAX_NUM or the declared count, and stops at the first empty name or at the cap |
| Walker.ActiveCount | traceback/traceback.c:306-332 | at most ARGS_MAX_NUM arguments, and no more than are declared, are decoded |
| Walker.ArgsLoop | traceback/traceback.c:306-334 | the loop stops at a count no larger than the number of active arguments, and reports a fault exactly when it stopped early on an unreadable slot |
| Walker.ActiveFromIsFirstInactive | traceback/traceback.c:306-332 | starting the count anywhere before the first inactive argument finds that same argument |
| Walker.ArgsLoopRendered | traceback/traceback.c:306-334 | from argument k >= 1 on, the loop appends ", " and the text of each remaining readable argument, then a dangling ", " if it stopped on an unreadable slot, and reports the fault exactly then |
| Walker.FrameLineFormat | traceback/traceback.c:294-341 | when the first j arguments are readable and the next active one (if any) is not: the line is `Function name(void), in` for j = 0, otherwise `Function name(` + the first text + each later one after ", " + a dangling ", " if a slot faulted + `), in`; the frame reports a fault exactly when j is below the number of active arguments |
| Walker.SepJoinJoins | traceback/traceback.c:306-341 | the first argument text followed by each later one after ", " (the order the loop appends them in) is exactly those texts joined by ", " |
| Walker.FrameLineJoined | traceback/traceback.c:294-341 | when at least one argument was rendered, the frame line is `Function name(` + the texts joined by ", " as `Render.Join` joins them + a dangling ", " if a slot faulted + `), in` |
| Walker.BuildFrameLine | traceback/traceback.c:294-341 | the argument loop that builds the line in place produces exactly the frame's line and its fault flag |
| Walker.Traceback | traceback/traceback.c:175-369 | the lines written, the reason the walk stopped and frame_invalid are exactly those of the walk over the initial memory; memory changes only when the walk stops on a writable saved pointer, by the store of DUMMY_VALUE there |
| WalkerProps.ArgsLoopStep | traceback/traceback.c:306-334 | one turn of the argument loop on a readable slot extends the buffer and continues at the next argument |
| WalkerProps.ArgsLoopExtends | traceback/traceback.c:306-334 | the argument loop only appends: the buffer it started with is a prefix of the result |
| WalkerProps.FrameLineShape | traceback/traceback.c:294-341 | every resolved frame's line starts with "Function " and ends with "), in" and a newline |
| WalkerProps.FrameOutputShape | traceback/traceback.c:270-341 | every line written for a frame, resolved or not, has that shape |
| WalkerProps.WalkStep | traceback/traceback.c:216-348 | a frame whose base pointer and return address are readable and whose saved pointer is higher is rendered with the arguments read at the saved pointer, then the walk goes on from there, or stops with WriteFailed if that Write fails |
| WalkerProps.WalkFromLines | traceback/traceback.c:216-348 | the walk only appends lines; each new line was accepted by Write and has the frame-line shape; a WriteFailed stop means the next Write was refused |
| WalkerProps.WalkFromInvalid | traceback/traceback.c:219-266 | an unreadable frame, an unreadable return address or a corrupt (writable) saved pointer always leaves frame_invalid set, and frame_invalid once set is never cleared |
| WalkerProps.WalkShape | traceback/traceback.c:175-369 | for the whole trace: every line was accepted and has the frame-line shape, a WriteFailed stop means the next Write was refused, and a fatal stop sets frame_invalid |
| WalkerProps.ChainLines | traceback/traceback.c:239-348 | a chain of n base pointers writes n - 1 lines |
| WalkerProps.ChainLinesAt | traceback/traceback.c:239-348 | the i-th line of a chain is the frame of the i-th return address, with its arguments read at the next base pointer |
| WalkerProps.ChainFaultAt | traceback/traceback.c:322-327 | a chain reports an argument fault exactly when some link's frame had an unreadable argument slot |
| WalkerProps.ChainWalk | traceback/traceback.c:216-348 | climbing a chain of strictly increasing readable frames writes its lines, folds its argument faults into frame_invalid, and continues from its last frame |
| WalkerProps.CleanWalk | traceback/traceback.c:175-369 | a chain of increasing frames ending at a frame whose saved pointer is not above it and not writable gives a RootFrame stop, one line per link (the function of each return address with arguments read at the next base pointer), and frame_invalid exactly when some line had an unreadable argument slot |
| WalkerProps.FatalWalk | traceback/traceback.c:216-266 | a chain of increasing frames ending at a frame that is unreadable, whose return address is unreadable, or whose saved pointer is not above it and is writable stops with BadFrame, BadReturnAddress or CorruptSavedFrame respectively, with frame_invalid set, one line per link and no line for that last frame |
| WalkerProps.WriteFailureTruncates | traceback/traceback.c:344-348 | a failed Write only cuts the output short: the lines are a prefix of those the walk writes when every Write succeeds, a walk not stopped by Write is identical to it, and a reported frame_invalid stays reported |
| WalkerProps.WalkFromPrefix | traceback/traceback.c:216-348 | the lines written before a point of the walk stay a prefix of the final output |

## Left out

- The SIGSEGV machinery is not modelled: installing, restoring and running
  the handler, and the global `sigsetjmp` buffer
  (`traceback/traceback.c:954-1033`). Each guarded access is instead a total
  check against the permission sets. A fault inside `is_string_printable`
  jumps back into `build_string`; here it is the `None` result of
  `IsStringPrintable`.
- `get_initial_base_pointer` and `get_return_addr` are assembly whose source
  is not part of this model. They become the `initialBp` argument and
  `Env.returnAddr`.
- libc's `%p` and `%f` texts are not modelled. They are the function
  parameters `Libc.pointer` and `Libc.float`.
- The `MAX_BUF_SIZE` limit of each `snprintf` is not modelled. Lines are
  unbounded strings.
- `Write`, `Fileno`, `Malloc` and `Free` are I/O wrappers. A `Write` failure
  is the `Env.accepts` oracle. The setup failures of `Fileno`, `Malloc` and
  handler installation, which make `traceback` return before the loop, are
  not modelled.
- A failed `Write` (`traceback/traceback.c:279-283`, 344-348) returns at
  once, without reaching `restore_SIGSEGV_handler` (line 366). The SIGSEGV
  handler then stays installed and the signal mask is not restored. The
  model has no handler state, so it records only the `WriteFailed` stop.
- `traceback_internal.h` is not part of this model. `ARGS_MAX_NUM` = 6
  follows the comment at `traceback/traceback.c:303-304`.
  `MAX_FUNCTION_SIZE_BYTES` = 1000000 is an assumption: the "1 MB" of the
  comments at lines 272 and 409 could equally be 1048576. `FUNCTS_MAX_NUM`
  = 100 is assumed too. No proved property depends on these values. The `TYPE_*` tags are the `ArgType` constructors, and any other
  tag renders nothing.
- C indexes past the end of the fixed table and argument arrays. Here a read
  beyond the declared entries is taken as an empty name, which ends the
  scan.
- `CString` treats a string that runs past the top of the address space
  (0xFFFFFFFF) as a fault, even when address 0 is readable. The C pointer
  would wrap to 0 and keep reading; that wrap-around is not modelled.
- `isprint` is modelled as `IsPrint`, which treats only 0x20..0x7e as printable. It does
  not model `isprint` on a whole stack word above 255, which C leaves
  undefined.
- The kernel console and interrupt code under `kern/` and the
  `syscall_wrappers` are outside the tracer and are not modelled.
