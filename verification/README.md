# stackplz: a verified model of its argument-reading language

stackplz traces Android processes with eBPF. A user writes argument specs; a Go compiler turns them into lists
of op keys; a small interpreter in the kernel (`read_args`) runs those lists when a probe hits and appends a
record that describes nothing of itself to a 32000-byte buffer; Go decoders must then consume exactly what was
written. This project models that path end to end, together with the state machines around it, and proves what
each part promises the next.

The path, in the order of the files:

- `Bytes`, `Memory`: machine integers, byte images, user memory as a partial byte map that is stable during
  one probe. A failed probe read zero-fills its destination and a read of no bytes succeeds. Whether the kernel
  counts the NUL of an empty string (1) or not (0, as `src/utils.h:262-263` expects) is a field of the memory, and
  every result holds for both.
- `EventBuffer`, `Saves`: the three bounded encoders, in place on the array, and any sequence of their calls.
- `Ops`: ops, fused ops and the process-wide interning table.
- `Machine`, `Interpreter`: every case of the interpreter's switch, and `read_args` as written, with its
  program counter, post-ops, FOR_BREAK loops, step budget and skip verdict, on a class with the fields of
  `op_ctx_t`.
- `Codes`: the codes and early returns no built-in type needs, by what short sequences of them leave.
- `Structured`: a big-step meaning and an exact step cost for well-bracketed op lists, and the proof that the
  interpreter implements both, whatever the ops do to the data.
- `Loops`: how often a paired loop runs its body.
- `Frames`, `Effects`, `ArgTypes`, `Sections`, `Emission`: what each argument type's ops save, as a function of
  memory, registers and the offset in the buffer, with or without room left in it.
- `ReadAddress`, `AddressText`: read-address expressions, their text, their compilation and the address they compute,
  the last for every text, read mark by mark.
- `PointArgs`, `Records`, `Runs`, `Verdicts`: a point's arguments and key list, its whole record, every filter's
  verdict, what a run does not depend on, and which configured filters skip an event.
- `Decoder`, `RoundTrip`, `Framing`, `Probes`: the decoders, exactly when they stay in step with the emitting side,
  and the end-to-end path from a configured point over a probe hit to the decoded arguments.
- `StaleState`, `CutOff`: what leaks from one event into the next, and exactly when: the string length, the read
  address, and a post-op left pending by a run that its budget cut off.
- `Filters`: how rules are encoded and what the kernel's comparisons mean.
- `Snapshots`, `Workers`, `SharedList`, `ForkTracking`, `DumpFile`: the register snapshots between entry and
  exit, the event processor's workers, the map shared by eight lists, fork tracking, and the dump file.

Control flow and byte layout are reasoned about through closures held in a record (`Effects.Sem`) or passed as
an argument (`RoundTrip.Wiring`); the predicates about them (`Valid`, `IsWire`) carry triggers that keep the
definitions folded until a proof asks for them.

## What the code does differently from what it says

The code is modelled as it is; for each point the condition under which it does what is intended is proved, and an
input on which it does not.

- A second register in a read address replaces the address before it is added or subtracted: `x0+x1` gives
  2 * x1 and `x0-x1` gives 0. With only offsets behind the last register the final address is the intended one if
  and only if the intended address in front of that register is the register's own value
  (`ReadAddress.FinalAddressIsExact`); step by step, if and only if that holds at every later register
  (`ReadAddress.AgreementIsExact`). With a `.` behind the last register the condition stays sufficient.
- A value filter on a read address compares the register named last. For a register with offsets that is the address
  if and only if the offsets cancel (`Records.FilterSeesAddress`).
- `gt` passes values below the configured one and `lt` values above it, the opposite of
  `docs/CONFIG.md:62-63`; the two agree if and only if both sides are equal (`Filters.DirectionIsReversed`).
- A FOR_BREAK count of 0 still runs the body once, and the kernel sends up to 32 vectors where the decoder reads at
  most six: with readable vectors, iovecs and msghdrs stay in step if and only if their count is 1 to 6
  (`Framing.IovecFramingIsExact`, `Framing.MsghdrFramingIsExact`).
- A vector that cannot be read is sent as ten bytes where the decoder takes at least 26. With address 0 unmapped, a
  single vector stays in step if and only if it can be read, which in `writev(fd, NULL, 1)` it cannot
  (`Framing.OneVectorIsExact`); up to 15 vectors none of which can be read never stay in step
  (`Framing.LostVectorsMisframe`, `Framing.MsghdrLostVectors`), nor does a msghdr that cannot be read
  (`Framing.LostHeaderMisframes`).
- The type of a single iovec is parsed as if a count were in front of it, which nobody sends: it is never in step with
  a buffer of less than 139 bytes (`Framing.SingleIovecMisframes`).
- An array of more than 4096 bytes, such as `int_arr:2000`, panics the decoder unless nothing of it can be read
  (`Framing.ArrayFramingIsExact`, `Framing.LongArrayPanics`). The same holds of structures, none of which is that
  large (`Framing.StructSizeIsExact`).
- A uprobe file config announces a section by the configured type name: `str` is framed correctly, `string`, which
  names the same type, is not (`PointArgs.UprobeFileAgrees`, `PointArgs.SpellingDecides`). At the end of a record an
  argument decodes if and only if the two sides agree (`Framing.AgreementIsFraming`).
- A `ret` parameter that is not a number panics the decoder (`Framing.ReturnFramingIsExact`), and one with a register
  of its own leaves the return value over (`Framing.NamedReturnLeavesWord`).
- A return value with a section reads it wherever the previous argument or event left the read address
  (`Records.ReturnSectionIsStale`). That is the returned value's section in every memory if and only if the two
  addresses agree below the tag (`StaleState.ReturnSectionIsExact`).
- A read address without a register, such as `.`, compiles, and follows pointers from the read address left over
  (`Records.UnnamedAddressIsStale`); its value filters go by the register value left over
  (`Records.UnnamedFilterIsStale`).
- A string sets `str_len` only when it is saved. A length left by an earlier event is looked at if and only if some
  string argument has a filter that matches the bytes in memory and neither it nor an argument in front of it saves a
  string (`StaleState.LengthDecides`); with one argument and filter, if and only if the string cannot be read or finds
  no room while the filter matches (`StaleState.StaleLengthDecides`). Then two runs on the same registers and memory
  differ (`StaleState.StaleLengthLeaks`): with a string that runs off its page (`StaleState.EdgeLeaks`), or one behind
  seven full buffers (`StaleState.FullBufferLeaks`).
- A run cut off by its budget between the two halves of a fused op leaves the second half to the next event
  (`CutOff.TurnLeavesPending`, `CutOff.CutInSection`): thirteen `int_arr:4` arguments of a uprobe do
  (`CutOff.ThirteenArraysAreCut`). That event's record then starts with bytes of its own memory at the old address
  (`CutOff.PendingComesFirst`), which the decoder takes for the first argument's value (`CutOff.PendingSection`).
- `AddFilter` compares each text with a field that is never set: equal texts get an index each, and only the empty text
  finds an entry, the first one (`Filters.SharingIsExact`, `Filters.SameRuleTwice`).
- A uprobe hit skipped by its filters still feeds the matching return's record, unlike a system call's enter
  (`Snapshots.SkippedHitStillReturns`).
- With the kernel's enters and exits paired, an exit record carries another call's registers if and only if its own
  enter was not admitted and an earlier kept enter of the thread is still pending (`Snapshots.MixesExactly`,
  `Snapshots.PairedCallsCanMix`).
- A UUID goes mute in exactly one way, when the dispatcher registers a worker that died after its creation
  (`Workers.MuteBeginsExactly`); it stays mute in every continuation, and 256 further events of it stall the whole
  dispatcher for ever (`Workers.MuteForever`, `Workers.StallIsReachable`, `Workers.StallForever`).
- A missing filter, an unknown key or a register out of range ends a run without a verdict: the event is kept even
  behind a whitelist that missed (`Codes.EarlyReturnKeeps`).
- The filters of a string or sized buffer are looked at only with its section; without one, and on a return value, they
  are silently ignored (`Verdicts.SilentArg`).
- Ids of 0x400 and more can alias between the shared lists (`SharedList.LookupIsExact`, `SharedList.LargeIdsAlias`).

## Model

| member | source | states |
|---|---|---|
| EventBuffer.Buffer.SaveToSubmitBuf | src/common/buffer.h:16-43 | the in-place encoder appends index and data exactly when there is room and otherwise leaves the committed bytes and offset alone, all stores inside the array |
| EventBuffer.Buffer.SaveBytesToBuf | src/common/buffer.h:45-89 | the same for sized sections: index, length, payload; a failed read commits nothing |
| EventBuffer.Buffer.SaveStrToBuf | src/common/buffer.h:165-195 | the same for strings, whose length is stored behind the payload |
| Saves.SaveIsExact | src/common/buffer.h:16-89 | a save succeeds if and only if its memory is readable, fixed data is not empty and the offset leaves room; length header equals payload, or is the end marker with no payload; failure changes nothing; never past 32000 bytes |
| Saves.SavesKeep | src/common/buffer.h:16-195 | after any sequence of saves the buffer is in bounds and holds its old prefix followed by exactly the accepted requests' contents in order, with the count grown by their number |
| Saves.NothingDropped | src/utils.h:170-187 | while the buffer ends at or below 32000 - 4101, every request with readable memory is accepted |
| Saves.LimitIsSharp | src/common/buffer.h:16-89 | words are saved if and only if the offset is at most 32000 - 111, readable sections if and only if it is at most 32000 - 4101 |
| Saves.OversizedSave | src/common/buffer.h:68-82 | a size beyond 4096 is announced as it is but sends only its low twelve bits' worth of bytes, of the end marker none |
| Memory.TextIsRead | src/common/buffer.h:165-195 | what a string read finds, for every text without a NUL: the text with its NUL, the first 4095 characters of a longer one, a fault where mapped memory ends first; an empty text may count as nothing |
| Ops.OpManager.AddOp | user/argtype/op_helper.go:144-153 | returns the index of the same op, appending it only when it is new |
| Ops.InternAllMeans | user/argtype/op_helper.go:144-211 | after any sequence of registrations no two entries are the same, indices are positions, earlier ones keep their meaning, and the keys returned resolve to the ops asked for in order |
| Ops.MeansIsStable | user/argtype/op_helper.go:155-161 | a key list keeps its meaning however the table grows |
| Ops.InternIsInjective | user/argtype/op_helper.go:174-194 | two ops get the same key if and only if they are the same op |
| Ops.SkipIsZero | user/argtype/op_helper.go:266 | index 0 means SKIP in every later table |
| Interpreter.StrBuf.Compare | src/common/buffer.h:222-249 | the map-based compare hits if and only if the string is long enough and its re-read, padded bytes equal the filter's, and leaves the map empty |
| Interpreter.OpCtx.Operate | src/utils.h:52-314 | every case of the switch changes exactly the fields the specification says and returns early exactly on a missing filter or a register out of range; what the specification means is in the rows on `Codes`, `Sections`, `Emission`, `AddressText` and `Verdicts` |
| Interpreter.OpCtx.StepLoop | src/utils.h:98-110 | FOR_BREAK on program counter, loop start and loop registers |
| Interpreter.OpCtx.Turn | src/utils.h:38-52 | one turn is fetch or pending post-op, SKIP, switch, blacklist check |
| Interpreter.OpCtx.ReadArgs | src/utils.h:29-319 | from any left-over state, the loop is exactly as many interpreter turns as the key list is long, and the skip flag is set exactly by the verdict of the state reached |
| Codes.EarlyReturnKeeps | src/utils.h:43-46 | a run that meets the end of the keys, an unknown key, a filter not installed or a register out of range returns for good and keeps its event, even behind a whitelist that missed |
| Codes.ResetForgets | src/utils.h:53-60 | RESET_CTX makes contexts equal that agree on record, flags, string length and saved address, and the rest zero |
| Codes.IndexedRegister | src/utils.h:139-148 | SET_REG_INDEX and a plain READ_REG read the register the low byte names, and return early beyond the program counter |
| Codes.CountScales | src/utils.h:77-79 | SET_READ_COUNT, alone or fused with SAVE_STRUCT, multiplies the length modulo 2^32, of which at most 4096 bytes are saved |
| Codes.PointerBefore | src/utils.h:157-169 | READ_POINTER with SUB_OFFSET and SAVE_POINTER record the word so far in front of the address |
| Structured.ProgramRuns | src/utils.h:38-126 | every well-bracketed op list ends, without relying on the budget, after exactly its computed cost, in the big-step state behind the list or stopped where the big step stops |
| Loops.LoopRunsExactly | src/utils.h:98-126 | paired FOR_BREAK ops run a body that goes on while nothing is blacklisted exactly max(1, min(32, n)) times, at an exact cost, and leave the loop registers zero |
| Loops.SteadyLoopRuns | src/utils.h:98-126 | so does the real interpreter with every body of ops that neither filter, set the loop bound nor can fail, in every environment |
| Loops.IovecLoopRunsExactly | user/argtype/argtype_complex.go:741-756 | the loop over iovecs takes max(1, min(32, n)) turns of twelve, with or without room in the buffer |
| ArgTypes.TypeIsBracketed | user/argtype/argtype_complex.go:113-122 | the registered op list of every argument type is the flattening of a program with paired loops |
| Sections.IovLoop | user/argtype/argtype_complex.go:709-756 | from any turn on, the i-th vector is read 16 * i bytes further, each followed by at most 4096 bytes of its buffer, and the loop registers end at zero |
| Sections.StringsLoop | src/utils.h:251-270 | the string-array loop writes one pointer and string per turn up to and including the first string that cannot be read or finds no room, which gets the end marker if that fits and is the last turn |
| Sections.SentWithRoom | src/common/buffer.h:45-195 | with room for a whole section exactly the section is sent; without, only string arrays end earlier |
| Sections.LongStdString | src/utils.h:271-295 | a `std::string` with the top bit of its 24th byte set is sent, filtered and measured at the pointer in its first word |
| Sections.ShortStdString | src/utils.h:271-295 | with that bit clear, or the byte not mapped, it is at the object's own untagged address |
| Sections.LongStdText | src/utils.h:271-295 | so a long string of 1 to 4095 characters is recorded whole with its NUL |
| Sections.TextFrame | src/utils.h:238-250 | a string's section is its text and NUL and `str_len` their number, or nothing when it is lost or finds no room |
| Emission.TypeEmits | user/argtype/argtype_complex.go:17-834 | for every type, memory and starting state, however full the buffer, the type's ops run to their end, save exactly the section stated from memory, registers and offset, dropping the frames without room, take exactly the stated turns and set the string length exactly when a string is saved |
| ReadAddress.LexPrint | user/config/config_module.go:201-251 | reading a printed expression gives the expression back |
| ReadAddress.LexSplit | user/config/config_file.go:158-208 | splitting at dots and then at signs reads the same expression as reading it character by character |
| ReadAddress.CompileReadOp | user/config/config_module.go:201-251 | the token loop compiles exactly the expression read from the text and panics exactly on an unknown token or a constant before the first register; what the compiled ops compute is said of the text itself by the rows on `AddressText` |
| AddressText.EveryText | user/config/config_module.go:204-222 | every text is a token followed by dots and signs with a token each, possibly empty |
| AddressText.TextRuns | user/config/config_module.go:201-251 | from the text to the record: the compiled ops leave and record the address that reading the text mark by mark gives, from any read address left over, and the register named last in the value register |
| AddressText.PanicsExactly | user/config/config_module.go:224-241 | the compiler panics exactly on texts that cannot be read: unknown tokens, registers of 33 and more, a number in front of the first register |
| AddressText.RegisterPlusSum | user/config/config_module.go:224-231 | a register with signed numbers is the register plus their sum modulo 2^64 |
| AddressText.DocumentedText | user/config/config_module.go:192-200 | `sp+0x20-0x8.+8.-4+0x16` leads 0x12 behind the target of the pointer 8 behind the target of the pointer 0x18 behind sp |
| ReadAddress.AddressRuns | src/utils.h:80-165 | running the compiled ops leaves the computed address in the read address, and SAVE_ADDR records that address |
| ReadAddress.OneRegisterMeans | user/config/config_module.go:194-200 | with a single register the computed address is the expression's meaning modulo 2^64, in every memory and register file |
| ReadAddress.AgreementIsExact | user/config/config_module.go:232-241 | the compiled ops follow the expression step by step if and only if every later register equals the address so far |
| ReadAddress.FinalAddressIsExact | user/config/config_module.go:232-241 | with a register behind an expression that names one and only offsets behind it, the final address is the intended one if and only if the intended address in front of that register is its value |
| ReadAddress.WrongStepRightAddress | user/config/config_module.go:232-241 | a sum of three registers comes out right although a step in between does not |
| ReadAddress.SecondRegisterReplaces | src/utils.h:133-138 | a sum of two registers yields twice the second, a difference 0 |
| ReadAddress.RegisterForgets | src/utils.h:86-88 | once a register has been named, the address no longer depends on what was there before |
| PointArgs.BindSyscall | user/config/config_module.go:521-552 | each side's copy has its argument's register, type, read address and filters, is no return value, and has the side's group and the stated phase; the return value goes to the exit side only |
| PointArgs.BoundAgrees | user/config/config_point_arg.go:108-118 | for bound arguments emit side and decode side agree on every section, on both records |
| PointArgs.SyscallPoint | user/config/config_module.go:554-596 | both sides of a configured point up to the return value, field by field: type, address and filters of the parameter, its register by name or position, the phase `more` names, the side's group; panics exactly on an unknown word |
| PointArgs.FileArgCopies | user/config/config_module.go:558-592 | a copy is determined by those fields, and exactly four words are known |
| PointArgs.MoreSays | user/config/config_module.go:566-577 | enter sections follow with no word, `enter` and `all`, exit sections with `exit` and `all` |
| PointArgs.FileRetKeeps | user/config/config_module.go:558-564 | a `ret` parameter keeps everything but its phase and, unless one is named, its register, of which it has none |
| PointArgs.FileArgAgrees | user/config/config_module.go:564-592 | whatever the configured time, emit and decode side agree on every parameter but `ret`, on both records |
| PointArgs.FileRetAgrees | user/config/config_module.go:558-564 | the two sides agree on a `ret` parameter if and only if it is a number |
| PointArgs.SpecTypes | user/config/config_file.go:76-112 | buffers are 256 bytes, a number up to 4096 or a register's value, arrays have elements of four or eight bytes, vectors are counted by a register, everything else is looked up |
| PointArgs.UprobeFileKeeps | user/config/config_file.go:45-129 | register, address and filters are the configured ones, a leading `*` is one more pointer, and the argument is well formed |
| PointArgs.UprobeFileAgrees | user/config/config_file.go:69-129 | a uprobe file config frames an argument correctly if and only if its configured name is one of the announced ones, it has a leading `*`, or it is a number |
| PointArgs.SpellingDecides | user/config/config_file.go:113-123 | `str` is framed correctly, `string`, which names the same type, is not |
| PointArgs.PointIsBracketed | user/config/config_point_arg.go:128-173 | every point's op list is the flattening of a well-formed program |
| PointArgs.GetOpList | user/config/config_point_arg.go:128-173 | the keys returned are those of value, value filters, section and late filters, in that order |
| PointArgs.FiltersArePlaced | user/config/config_point_arg.go:145-173 | a number's filters all stand between value and section, a string's or sized buffer's behind the section and only with one, a return number's nowhere |
| Verdicts.NumberVerdict | user/config/config_point_arg.go:145-152 | an argument that is neither a return value nor a string nor a sized buffer rejects the event if and only if one of its configured filters fails on the register read last, and is never a whitelist |
| Verdicts.TextVerdict | user/config/config_point_arg.go:158-162 | a string with a section rejects if and only if one of its blacklist texts matches behind it, and hits or misses exactly as its whitelist texts do |
| Verdicts.SizedVerdict | user/config/config_point_arg.go:163-168 | a sized buffer with a section hits or misses exactly as its whitelist patterns do and never rejects |
| Verdicts.SilentArg | user/config/config_point_arg.go:131-147 | no filter is looked at without a register, on a return number, or on a string or sized buffer without its section |
| Verdicts.TextIsArgument | user/config/config_module.go:194-251 | the address an argument's text means is its value and its section's address, and its filters see the register named last |
| Verdicts.PrefixDecides | src/utils.h:222-237 | a string in a register with one text rule and room: the whitelist hits, the blacklist rejects, if and only if the rule's text is a prefix of the string in memory |
| Verdicts.RunVerdict | src/utils.h:298-311 | with a budget beyond its cost a run skips the event if and only if some argument rejects it, or some argument's whitelist missed and none hit |
| Verdicts.EqualityDecides | src/utils.h:188-195 | `eq:5` on x2 skips the event if and only if x2 is not 5 |
| PointArgs.OpKeyConfig.AddPointArg | user/config/iconfig.go:48-65 | appends the argument's keys and panics exactly when they would leave no trailing zero |
| PointArgs.GetConfig | user/config/config_syscall.go:28-46 | succeeds if and only if the point's ops are fewer than the list's length; the padded list then means the point's ops followed by SKIP |
| Records.FiltersRun | src/utils.h:188-237 | a list of filters stops the run exactly when one is against the event, and otherwise sets the whitelist flags as evaluating all of them would |
| Records.PointPiece | user/config/config_point_arg.go:128-173 | a whole point saves exactly its record, as a function of arguments, memory, registers and offset, unless some filter is against the event, at an exact cost |
| Records.RecordWithRoom | src/common/buffer.h:45-195 | with room for all of it the record sent is the one stated from arguments, memory and registers alone |
| Records.FilterSeesAddress | user/config/config_point_arg.go:145-152 | for a register with offsets a value filter compares the register alone, which is the address if and only if the offsets cancel modulo 2^64 |
| Records.FilterMissesOffset | src/utils.h:188-195 | an equality filter for the address `x0+8` rejects the event, one for x0 keeps it |
| Records.ReturnSectionIsStale | user/config/config_point_arg.go:135-138 | a return value's section is taken at the read address left over |
| Records.UnnamedAddressIsStale | user/config/config_module.go:201-211 | a read address that names no register takes value and section where a chain of pointers leads from the read address left over |
| Records.UnnamedFilterIsStale | src/utils.h:188-206 | its value filters compare the register value left over |
| Runs.RunFinishes | src/utils.h:29-319 | with a budget beyond the computed cost every point finishes from every left-over state, a pending post-op included, and with any room in the buffer: it skips exactly when evaluating all filters to the end rejects the event, saves exactly its record otherwise, and leaves no post-op pending |
| Runs.BudgetIsExact | src/common/consts.h:12-18 | a kept event's run is cut off if and only if the key list is no longer than the cost, whatever room the buffer has |
| Runs.RunsForget | src/syscall.c:143-149 | verdict and record do not depend on the fields the eight-byte clearing leaves stale, with any room in the buffer, unless a save was left pending or a left-over length is looked at |
| StaleState.StaleLengthDecides | src/utils.h:222-250 | a left-over string length decides a string argument with one filter if and only if the string cannot be read or finds no room and the filter, of non-zero length, matches the bytes in memory |
| StaleState.LengthDecides | src/utils.h:222-250 | for every point and any number of filters, a left-over length is looked at if and only if a string argument has a filter that matches the bytes in memory and neither it nor an argument in front of it saves a string |
| StaleState.StaleLengthLeaks | src/syscall.c:143-149 | then two runs of the same point on the same registers and memory differ, one event kept and the other skipped |
| StaleState.EdgeLeaks | src/common/buffer.h:222-249 | a character at the end of the last mapped page meets that condition, wherever the record stands |
| StaleState.FullBufferDecides | src/utils.h:238-250 | behind an enter header and seven full buffers a readable string's filter goes by the length an earlier event left, behind six it does not |
| StaleState.FullBufferLeaks | src/utils.h:238-250 | a memory, registers and a whitelist under which that event, of 40 turns, is skipped exactly when the earlier string was empty |
| StaleState.ReturnSectionIsExact | user/config/config_point_arg.go:135-138 | the section at a left-over address is the one at the returned address in every memory if and only if the two agree below the tag |
| CutOff.TurnLeavesPending | src/utils.h:38-51 | a turn ends with a post-op pending if and only if none was pending and it fetches an op that has one |
| CutOff.CutInSection | src/common/consts.h:12-18 | a budget that ends one turn into a fused section leaves SAVE_STRUCT pending, with that section's address and length in the registers |
| CutOff.ThirteenArraysAreCut | src/common/consts.h:12-18 | the 64 turns of a uprobe with thirteen `int_arr:4` arguments end that way |
| CutOff.PendingComesFirst | src/utils.h:38-41 | the next event's record, if kept, is the frame left pending, taken from the left-over registers in the new memory, followed by its own arguments, and its verdict is taken behind it |
| CutOff.PendingSection | user/config/config_syscall.go:48-59 | decoded as the first argument's value such a frame is its length and, above it, its first four bytes |
| CutOff.TableIsHarmless | user/argtype/op_helper.go:144-211 | no op that any point registers has a post code that filters, loops or can fail |
| CutOff.RunsLeaveHarmless | src/utils.h:38-51 | so whatever ran and however it ended, the post code left over is one the results on runs allow |
| Runs.TwoStringArraysFit | src/common/consts.h:12-18 | two full string arrays fit the budget of 256 in any memory |
| Decoder.ByteBuffer.ReadSection | user/argtype/argtype_base.go:195-748 | each type's parser consumes exactly what its specification consumes, with the same panics |
| Decoder.ByteBuffer.ReadStrings | user/argtype/argtype_complex.go:83-111 | the string-array loop stops at the end marker, a null pointer or 32 strings |
| Decoder.ByteBuffer.ReadVectors | user/argtype/argtype_complex.go:676-707 | the vector loop reads 21 bytes and a section per vector |
| Decoder.ByteBuffer.ParsePoint | user/config/config_syscall.go:48-107 | enter and exit parsers read value and, when asked for, section, argument by argument |
| RoundTrip.StringsParsed | user/argtype/argtype_complex.go:83-122 | for every number of readable strings the decoder returns those strings and consumes the whole section, end marker included |
| RoundTrip.SectionRoundTrip | user/argtype/argtype_complex.go:17-834 | for every type with sizes and counts in range, parsing the section gives what memory and registers hold and consumes it exactly |
| RoundTrip.LongStdMeans | src/utils.h:271-295 | a long `std::string` of 1 to 4095 characters decodes to the text behind the pointer in its first word |
| Framing.ArrayFramingIsExact | user/argtype/argtype_complex.go:124-178 | an array stays in step if and only if it is at most 4096 bytes or nothing of it was sent; short of the 32-bit wrap of its size any other one panics |
| Framing.LongArrayPanics | user/config/config_module.go:118-143 | 2000 integers in readable memory panic the decoder |
| Framing.StructSizeIsExact | user/argtype/argtype_base.go:649-720 | a structure decodes if and only if it is at most 4096 bytes or cannot be read |
| Framing.IovecFramingIsExact | user/argtype/argtype_complex.go:684-689 | with readable vectors an iovec stays in step if and only if its count is 1 to 6, and then returns exactly the vectors in memory |
| Framing.MsghdrFramingIsExact | user/argtype/argtype_complex.go:758-805 | with header and vectors readable a msghdr stays in step if and only if it has 1 to 6 vectors |
| Framing.NegativeCountReadsNone | user/argtype/argtype_complex.go:684-689 | a count that is negative as a signed number reads no vectors |
| Framing.NullPointerEnds | user/argtype/argtype_complex.go:94-107 | a null pointer ends a string array for the decoder even when address 0 can be read |
| Framing.OnlyWholePointers | user/argtype/argtype_base.go:201-211 | a pointer's word is read only when eight bytes were announced, and is zero otherwise |
| Framing.OneVectorIsExact | user/argtype/argtype_complex.go:689-704 | with a count of 1 and address 0 unmapped an iovec stays in step if and only if its vector can be read |
| Framing.LostVectorsMisframe | user/argtype/argtype_complex.go:689-704 | an iovec of up to 15 vectors none of which can be read, or with a negative count, never stays in step |
| Framing.MsghdrLostVectors | user/argtype/argtype_complex.go:783-802 | nor does a readable msghdr with such vectors |
| Framing.LostHeaderMisframes | user/argtype/argtype_complex.go:758-778 | a msghdr none of whose fields can be read never stays in step |
| Framing.SingleIovecNeedsBytes | user/argtype/argtype_complex.go:709-723 | the single iovec type is in step only if its section is at least 165 bytes long |
| Framing.SingleIovecMisframes | user/argtype/argtype_complex.go:709-723 | so one that cannot be read or has a buffer of less than 139 bytes never is |
| Framing.AgreementIsFraming | user/config/config_point_arg.go:108-118 | at the end of a record an argument decodes with nothing left over if and only if the two sides agree on its section |
| Framing.ReturnFramingIsExact | user/config/config_syscall.go:95-106 | the return value decodes if and only if its type is a number |
| Framing.NamedReturnLeavesWord | user/config/config_file.go:50-56 | a `ret` parameter with a register of its own is read like any argument and leaves the return value over |
| RoundTrip.PointRoundTrip | user/config/config_syscall.go:48-59 | a point's record decodes to the values of its arguments and nothing is left over |
| RoundTrip.ExitRoundTrip | user/config/config_syscall.go:95-106 | an exit record decodes to the arguments from the entry's registers and then the return value, for every last argument without a register and of a number type |
| RoundTrip.EventRoundTrip | src/utils.h:29-319 | end to end: an event that is not skipped and whose record finds room leaves a record whose decoding is every argument's value, read straight from its registers and memory |
| Probes.TraceEnter | src/syscall.c:113-158 | the enter body submits exactly the events its filters keep, from any left-over context and with any room, as header, pending frame and record, without the frames that find no room |
| Probes.TraceExit | src/syscall.c:226-248 | the exit body does the same with the snapshot's registers and appends the return value if it finds room |
| Probes.HeaderFields | src/syscall.c:116-139 | an enter header is call number, x30, sp and pc behind the save indices 0 to 3, an exit header the call number |
| Probes.StaleFieldsStay | src/syscall.c:143-149 | clearing eight bytes leaves string length, lengths, addresses, values read and a pending post code of the event before |
| Probes.EnterPath | user/config/config_syscall.go:28-59 | from configured arguments over key list, probe and record to the decoder: an event is submitted exactly when all filters keep it, and with room decodes to what its arguments mean |
| Probes.ExitPath | user/config/config_syscall.go:48-107 | the same for the exit side: the arguments from the enter's registers, then the return value |
| Probes.EnterRecordDecodes | user/config/config_syscall.go:48-59 | behind its header an enter record decodes to the point's arguments |
| Probes.ExitRecordDecodes | user/config/config_syscall.go:95-106 | behind its header an exit record decodes to arguments and return value |
| Filters.FilterHelper.AddFilter | user/config/config_filter.go:98-165 | the loop over the entries and the append leave exactly the list and index stated, with every index a position |
| Filters.TextGetsFreshIndex | user/config/config_filter.go:164-166 | a well-formed text always gets the fresh index behind the last entry, and that index means the rule's encoding |
| Filters.SharingIsExact | user/config/config_filter.go:98-103 | two calls with the same text share an index if and only if the text is empty and the list is not |
| Filters.SameRuleTwice | user/config/config_filter.go:98-103 | `eq:1` given twice becomes two filters with the same meaning |
| Filters.PanicIsExact | user/config/config_filter.go:104-163 | a call panics exactly on a malformed text, and on the empty one exactly while the list is empty |
| Filters.AllTextsMean | user/config/config_filter.go:98-165 | after any run of calls every text that is not empty means its own rule in the final table, and every empty one the first rule |
| Filters.HexFilterIsExact | user/config/config_filter.go:121-135 | for every pattern of 1 to 8 bytes the parse, byte swap, shift and kernel mask hit if and only if the first bytes compared are the pattern |
| Filters.AddrFilterIsExact | user/config/config_filter.go:110-120 | an address filter hits if and only if the first four bytes compared are its octets |
| Filters.ShortBuffer | src/utils.h:207-221 | when the eight bytes cannot all be read only an all-zero pattern hits |
| Filters.StringFilterIsPrefix | src/common/buffer.h:222-249 | after a string was read, a NUL-free text of at most 256 bytes matches if and only if it is a prefix of the string |
| Filters.UnreadableNeverMatches | src/common/buffer.h:222-249 | unreadable memory never matches a non-empty text, whatever length was left over |
| Filters.NumberFilters | src/utils.h:188-206 | which values pass eq, gt and lt as coded |
| Filters.DirectionIsReversed | docs/CONFIG.md:62-63 | the coded gt and lt do what is documented if and only if both sides are equal |
| Snapshots.CtxRegsMap.OnSysEnter | src/syscall.c:105-158 | an admitted enter leaves its registers and its skip flag in the store, and submits exactly when not skipped |
| Snapshots.CtxRegsMap.OnSysExit | src/syscall.c:171-249 | an exit that gets as far as the snapshot leaves none for its thread, whatever its lists and filters say, and no other key changes; it submits from the snapshot exactly when it was there, not flagged, and the exit's own checks pass |
| Snapshots.StoreIsSource | src/common/arguments.h:8-42 | after any history of accesses the store holds exactly the latest unconsumed snapshot of every key |
| Snapshots.ExitUsesPendingEnter | src/syscall.c:203-210 | over every interleaved run an exit record appears if and only if its thread has a pending enter its filters kept, and is built from that enter's registers |
| Snapshots.EnterFeedsOneExit | src/common/arguments.h:35-42 | no enter feeds two exit records |
| Snapshots.ExitConsumes | src/syscall.c:204-222 | after an exit that got as far as the snapshot no exit of the thread produces a record until its next admitted enter |
| Snapshots.ThreadsAreSeparate | src/common/arguments.h:8-42 | a thread's snapshot is what its own events alone leave |
| Snapshots.OwnEnterPending | src/syscall.c:105-113 | an exit finds the snapshot of its own call if and only if its own enter was admitted |
| Snapshots.MixesExactly | src/syscall.c:203-222 | with pairing intact a record carries another call's registers if and only if its own enter was not admitted, an earlier kept enter of the thread is pending, and the exit's own checks pass |
| Snapshots.PairedCallsCanMix | src/syscall.c:194-210 | a run with pairing intact in which one call's exit record carries another's registers |
| Snapshots.SyscallsDoNotMix | src/syscall.c:203-210 | a record whose own enter was admitted is built from that enter's registers |
| Snapshots.SyscallsCanMix | src/syscall.c:203-210 | without pairing a record of one call can carry another's registers |
| Snapshots.UprobeTracer.OnHit | src/stack.c:37-119 | a hit without a key changes nothing, one with its own key saves its registers, one with another key removes that snapshot; records follow as its key, its filters and the store say |
| Snapshots.UprobeTracer.OnReturn | src/stack.c:121-207 | a return with a key removes that snapshot and uses it, and uses the current registers without a key |
| Snapshots.LoadUsesPendingHit | src/stack.c:59-71 | over every interleaved run a loading point gives a record if and only if its filters keep it and an unconsumed hit of the entry point with its key is pending on its thread, and the record is built from that hit's registers |
| Snapshots.HitFeedsOneRecord | src/stack.c:137-152 | two loads never find the same snapshot |
| Snapshots.KindsApart | src/common/arguments.h:8-17 | snapshots of system calls and of uprobe points share a map and never a key |
| Snapshots.SkippedHitStillReturns | src/stack.c:59-106 | a hit skipped by its filters still feeds the return's record |
| Snapshots.AssignKeys | user/config/config_module.go:457-467 | every configured point keeps its fields and gets its own number plus one exactly when it has an exit offset or a return probe; one exit point per exit offset is appended, in order, at that offset and with its entry point's key |
| Snapshots.AppendedPointsLoad | user/config/config_uprobe.go:29-46 | every appended point loads what exactly one configured point saves and attaches where that one exits |
| Workers.OneRunningWorker | user/event_processor/processer.go:46-108 | over every interleaving at most one worker per UUID has not died |
| Workers.PrintedInOrder | user/event_processor/iworker.go:65-83 | what is printed for a UUID is a duplicate-free subsequence of what was dispatched, in dispatch order |
| Workers.PrintedExactly | user/event_processor/iworker.go:65-83 | of a UUID's events exactly those are printed that were taken and are not fork, exit, comm or mmap records |
| Workers.TakeResetsQuiet | user/event_processor/iworker.go:85-100 | an event taken starts the quiet time anew: eleven more ticks leave the worker open, the twelfth closes it |
| Workers.ExpireCloses | user/event_processor/processer.go:118-122 | closing the processor makes a registered worker close at its next tick with its queue as it is |
| Workers.MissingEventsAreStuck | user/event_processor/iworker.go:85-107 | every dispatched event was taken, waits on a running worker, or is queued on one that closed |
| Workers.LostForever | user/event_processor/iworker.go:102-107 | an event queued on a worker that closed is never taken, in any continuation |
| Workers.MuteBeginsExactly | user/event_processor/processer.go:68-74 | a UUID goes mute if and only if the dispatcher registers the worker it created and that worker has already died |
| Workers.MuteIsReachable | user/event_processor/processer.go:68-74 | a worker can be registered after it died |
| Workers.MuteForever | user/event_processor/processer.go:81-101 | from then on, in every continuation, no event of that UUID is taken |
| Workers.StallForever | user/event_processor/iworker.go:55-58 | with that worker's channel full the dispatcher never moves again |
| Workers.StallIsReachable | user/event_processor/iworker.go:55-58 | 256 events of a mute UUID fill the channel and the next one stalls the dispatcher |
| SharedList.LookupIsExact | user/module/syscall.go:196-208 | a lookup hits if and only if the id is in the list or another list holds an alias |
| SharedList.SmallIdsAreExact | src/common/consts.h:37-47 | with every id below 0x400 the map is eight separate lists |
| SharedList.SysListsAreExact | src/common/consts.h:37-47 | the call-number lists are exact whatever the others hold, as long as sums do not wrap |
| SharedList.LargeIdsAlias | src/common/consts.h:37-47 | whitelisting process 1029 blacklists process 5 |
| SharedList.ChainRefines | src/common/filtering.h:7-107 | the decision chain over the shared map decides as over eight lists when no lookup has an alias |
| SharedList.BlacklistsWin | src/common/filtering.h:42-66 | a thread's or process's blacklist entry beats the whitelist of its own and of every coarser level |
| SharedList.TracedExactly | src/common/filtering.h:7-107 | who is traced when no lookup has an alias: a thread its name allows, whitelisted by name, thread, process, fork, user or group, with no blacklist entry at that level or a finer one; the groups by their user ids |
| SharedList.SlotsAre | src/common/consts.h:40-47 | where each of the eight lists starts |
| ForkTracking.TrackingInvariant | src/syscall.c:37-56 | after any forks every recorded parent and every self-mapped process is whitelisted, and every other tracked process was forked by a process that was then self-mapped |
| ForkTracking.DepthIsOne | user/module/syscall.go:242-248 | every tracked process is whitelisted or a direct child of a whitelisted one |
| ForkTracking.ChildrenAreTracked | src/syscall.c:45-50 | every child of a self-mapped process is tracked from its fork on |
| ForkTracking.InitialRoots | user/module/syscall.go:242-248 | at first exactly the whitelisted processes are tracked, each mapped to itself |
| ForkTracking.WhitelistedChildren | src/syscall.c:37-56 | a whitelisted process's children are tracked, as long as no fork gives its number to a child |
| DumpFile.DumpHandle.DumpRecord | user/config/config_module.go:1073-1104 | appends the five fields of one record |
| DumpFile.Reader.ParseDump | user/event_parser/parser.go:45-74 | the loop reads records until the end of the file and panics on a cut or unknown one |
| DumpFile.DumpRoundTrip | user/event_parser/parser.go:45-74 | for records of known types, reading the dump back gives exactly those records if and only if every payload is shorter than 2^32 bytes |
| DumpFile.DumpedLengths | user/config/config_module.go:1078-1101 | the first length counts the bytes behind it and the second the payload's, modulo 2^32 |
| DumpFile.CutDumpPanics | user/event_parser/parser.go:45-68 | a file that ends inside a record panics, however many whole ones are in front |
| DumpFile.UnknownEventPanics | user/event_parser/parser.go:85-97 | so does a record whose event type is not 1 to 4 |

## Left out

- eBPF loading, perf readers, CLI, `/proc` reading, RPC and the unwinder: I/O and foreign calls.
- Map capacities (op_list, arg_filter, ctx_regs_map, common_list) and failing map updates.
- Human-readable and JSON formatting, flag names, hex dumps and white space trimmed from printed strings: decoders
  return values. Signedness of array elements is a matter of printing and is left out with it.
- The 32-bit build (pointer size 4) and the header of 32-bit processes.
- `save_str_arr_to_buf`, which `read_args` does not use.
- Go's number parsing and the register-name table: `ReadAddress.Classifier` and the rule parser of
  `Filters.FilterHelper.AddFilter` are parameters.
- Numeric op codes: the enumeration keeps their order; every other number behaves like `Unknown`.
- The uprobe bodies behind the snapshot, which save a header like the enter body's and run the same interpreter.
- Races on one CPU's `op_ctx` and on `str_buf`, and memory that changes during a probe: one probe is atomic.
- Registration of type and expression ops at start-up: `PointArgs.GetOpList` registers an argument's ops when its
  keys are asked for, which by `Ops.MeansIsStable` means the same.
- Structures' declared sizes are taken to equal the number of bytes their parser reads; `dirent` breaks this, because
  it is registered with the parser of `pollfd` (`user/argtype/argtype_complex.go:667-674`).
- RoundTrip.SectionRoundTrip: assumes 1 to 6 readable vectors for iovecs and msghdrs, structures and arrays of at most
  4096 bytes, and address 0 unmapped for string arrays, and leaves out the single iovec; what happens outside these
  ranges is in `Framing`, except for vectors and headers of which only some can be read; with address 0 mapped a null
  pointer ends the decoder's loop (`Framing.NullPointerEnds`) while the kernel's goes on.
- Framing.LostVectorsMisframe: says nothing about more than 15 unreadable vectors, of which 160 bytes and more are sent.
- Framing.SingleIovecMisframes: with a longer buffer the bytes of memory themselves decide what the decoder reads.
- Records.PointPiece: covers arguments whose address starts from a register and returns without a section; a
  return's section is `Records.ReturnSectionIsStale`, an address without a register `Records.UnnamedAddressIsStale`.
- Probes.EnterPath: does not say what the decoder makes of a record from which a frame was dropped for lack of room.
- ReadAddress.FinalAddressIsExact: with a `.` behind the last register only the sufficient direction is stated, by
  `ReadAddress.AgreementMeans`, because two addresses can hold the same pointer.
- Runs.RunFinishes: assumes every filter an argument names is installed; a missing one ends the run without a verdict.
