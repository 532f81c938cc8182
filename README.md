# pico-frame object runtime, modelled in Dafny

This project models the small object runtime of pico-frame, a C framework for
RP2040 microcontrollers, and proves properties of the model. It has three parts.

- **The built-in allocator** (`alloc.dfy`). Every allocation has a header. The
  live headers form a doubly linked list, with `head` and `tail` kept on the
  allocator. A header carries a 16-bit reference count, its size and its type
  tag. The `Allocator` class keeps a ghost sequence `blocks` of the live
  headers in list order. `Allocator.Valid` ties the `prev`/`next` links and
  `head`/`tail` to that sequence. `malloc`, `free`, `retain`, `release` and
  `destroy` are methods that update the links and counts in place; `magic`
  and `size` are methods that only read a header.
- **The application and value layer** (`tags.dfy`, `memory.dfy`, `value.dfy`,
  `reclaim.dfy`, `fuse.dfy`). The application record owns:
  - one allocator;
  - a descriptor table indexed by type tag;
  - the exit code;
  - the two per-core queue/callback pairs.

  On top of that record the model has:
  - tagged allocation with the tag's constructor, and the destructor on free;
  - the drain sweep, which frees blocks nobody retains;
  - the create/destroy lifecycle and the exit-code mapping;
  - the built-in constructors (numbers, memcpy, C string);
  - the bool, null and DATA-as-hex renderers.

  `reclaim.dfy` states what one drain pass leaves, as a pure function (`Sweep`)
  over a snapshot of which blocks are retained. `Drain` is proved against it.
  `Destroy` is proved to free exactly the unretained blocks, then the record.
- **The ADC driver and the map contract** (`adc.dfy`, `adc_value.dfy`,
  `map.dfy`, `map_tests.dfy`).
  - The ADC driver covers the channel-to-pin map, the process-wide singleton
    and the init/destroy/render callbacks. Each GPIO value its init creates is
    a new block at the tail of the live list.
  - `fuse_new_adc_ex` registers the ADC type lazily.
  - The fixed-capacity map is an abstract table: a capacity and a map from
    keys to values. TEST_001 and TEST_002 are verified scenarios that run
    against it.

Things the model does abstractly:

- **Outcomes the runtime cannot see** are parameters: whether an underlying
  `malloc` fails, whether an init callback whose body is not shown succeeds,
  and which ADC channels cannot get a GPIO.
- **Type numbering.** The public header that numbers the type tags is not part
  of this model, so `tags.dfy` picks a numbering. `Value.BuiltinTable` and
  `Fuse.Application.StandardTable` are stated as ranges of tags, so they
  assume its order: the tags fuse_new fills from fuse.c (NULL to MAP) come
  first, then EVENT, MUTEX and TIMER, then the rest.
- **Pointer width.** The target is 32-bit, so pointers and `size_t` are 32-bit.
- **Exit code.** `FUSE_EXIT_SUCCESS` is taken to be a reserved non-zero code
  (-1). `fuse_exit` maps 0 to it, and `fuse_run` treats 0 as "keep running".

Five things the code does as written are modelled as written:

- **The ADC skip test.** In `channel_mask & (1 << i) == 0`, `==` binds tighter
  than `&`, so no channel is ever skipped (`Adc.MaskNeverSkips`).
- **The ADC GPIO slots.** The GPIO values that `fuse_adc_init` creates are
  never stored in `gpio[]`, so the retain and release loops see only NULL,
  and the GPIO blocks stay on the live list with a count of 0.
- **GPIO values of a failed ADC.** When a channel's GPIO cannot be created,
  fuse_adc_init returns false but does not undo the GPIO values made for the
  channels before it. fuse_alloc_ex then frees the ADC block only, so the
  live list keeps those GPIO blocks, unretained, until the next drain frees
  them (`AdcValue.FailedAdcLeavesGpios`). The design's "no partial
  sub-objects" for a rejected construction holds only after that drain.
- **`fuse_init_memcpy`** copies the descriptor's size, not the block's. For
  DATA that size is 0.
- **The ADC singleton and fuse_destroy.** fuse_adc_destroy sets the singleton
  back to NULL when a drain frees an unretained ADC (`AdcValue.DrainClearsAdc`).
  An ADC still retained at fuse_destroy survives its drain, and the allocator's
  destroy then releases the block without running the destructor. The
  singleton is left naming a block that no longer exists
  (`AdcValue.RetainedAdcOutlivesDestroy`).

## Model

| member | source | states |
|---|---|---|
| Alloc.Header.constructor | src/fuse/alloc_builtin.c:55-59 | a fresh header has ref 0, no links, no payload written, and the requested size and magic |
| Alloc.Remove | src/fuse/alloc_builtin.c:90-106 | the live list after unlinking a header is one shorter exactly when the header was live, and holds nothing new |
| Alloc.RemovePast | src/fuse/alloc_builtin.c:90-106 | unlinking stops at the header: the blocks before and after it keep their order |
| Alloc.RemoveAt | src/fuse/alloc_builtin.c:90-106 | in a list without repeats, unlinking the header at position i cuts the list at i |
| Alloc.RemoveMembers | src/fuse/alloc_builtin.c:90-106 | in a list without repeats, unlinking takes out exactly that header and keeps every other |
| Alloc.RemoveAbsent | src/fuse/alloc_builtin.c:90-106 | unlinking a header that is not live changes nothing |
| Alloc.RemoveAppend | src/fuse/alloc_builtin.c:90-106 | unlinking a header from the front part of a list leaves the blocks after that part in place |
| Alloc.RemoveLast | src/fuse/alloc_builtin.c:65-75 | unlinking the header just appended gives back the list before the append |
| Alloc.DistinctCut | src/fuse/alloc_builtin.c:90-106 | unlinking keeps the live list free of repeats |
| Alloc.DistinctSnoc | src/fuse/alloc_builtin.c:65-75 | appending a new header keeps the live list free of repeats |
| Alloc.Reversed | src/alloc/alloc.h:19-20 | the order a walk along prev meets the headers in: the same length, and position k holds the header k places from the end |
| Alloc.Allocator.constructor | src/fuse/alloc_builtin.c:23-24 | a zeroed allocator is valid and empty, with head and tail NULL |
| Alloc.Allocator.Valid | src/alloc/alloc.h:19-37 | the link invariant of the header list: prev is NULL only on the first header and next only on the last, neighbours point at each other, head and tail are the ends, and no header appears twice |
| Alloc.Allocator.New | src/fuse/alloc_builtin.c:14-39 | the result is NULL exactly when the underlying malloc fails; otherwise it is a fresh, valid, empty allocator |
| Alloc.Allocator.Malloc | src/fuse/alloc_builtin.c:44-79 | on failure the list, head and tail are unchanged. On success the block is appended at the tail: its prev is the old tail, the old tail's next is the block, head is set only when the list was empty, and the block is zeroed with the given size and magic |
| Alloc.Allocator.Free | src/fuse/alloc_builtin.c:81-110 | removes exactly `b` and keeps the link invariant: its neighbours are linked to each other, head and tail move only when `b` was first or last, and the other blocks keep their order |
| Alloc.Allocator.UnlinkedValid | src/fuse/alloc_builtin.c:90-106 | the four relinking assignments restore the link invariant on the list without the block |
| Alloc.Allocator.Destroy | src/fuse/alloc_builtin.c:112-125 | the walk from head, saving next before each free, releases every live block in list order, and leaves nothing |
| Alloc.Allocator.Magic | src/fuse/alloc_builtin.c:127-138 | returns the magic malloc recorded and changes nothing |
| Alloc.Allocator.Size | src/fuse/alloc_builtin.c:140-151 | returns the size malloc recorded and changes nothing |
| Alloc.Allocator.Retain | src/fuse/alloc_builtin.c:153-165 | requires ref < UINT16_MAX, increments ref by one, and touches no link |
| Alloc.Allocator.Release | src/fuse/alloc_builtin.c:167-184 | requires ref > 0 and decrements ref by one. It returns true exactly when the count reaches 0, and the block is then unlinked at once; otherwise the list is unchanged |
| Alloc.Allocator.NeighboursLive | src/alloc/alloc.h:19-20 | a live header's prev and next are live headers or NULL |
| Alloc.Allocator.ForwardFrom | src/alloc/alloc.h:20 | following next from the i-th header meets exactly the rest of the live list |
| Alloc.Allocator.BackwardFrom | src/alloc/alloc.h:19 | following prev from the header before position i meets the first i headers in reverse |
| Alloc.Allocator.TraversalsAgree | src/alloc/alloc.h:36-37 | walking next from head and walking prev from tail both meet the live list, in opposite orders |
| Reclaim.Referenced | src/fuse/fuse.c:266 | the snapshot of retained blocks holds exactly the live blocks with a non-zero count |
| Reclaim.Sweep | src/fuse/fuse.c:257-274 | the blocks one drain pass leaves: at most the list's blocks; with a cap, at most the cap fewer; the whole list once the cap is reached |
| Reclaim.SweepOrder | src/fuse/fuse.c:263-272 | a pass, capped or not, leaves the retained blocks of the part it visited, in order, followed by the part it did not reach, so it frees every unretained block it visits |
| Reclaim.CappedStopsAtCap | src/fuse/fuse.c:263 | with a cap, an unretained block survives a pass only when the pass has freed exactly the cap's remaining allowance |
| Reclaim.SweepStep | src/fuse/fuse.c:263-272 | one loop iteration frees the visited block when it is unretained, and passes over it otherwise |
| Reclaim.Retained | src/fuse/fuse.c:215-219 | the reference result of draining to a fixed point: exactly the retained blocks, in list order |
| Reclaim.RetainedPrefix | src/fuse/fuse.c:266-270 | a list whose first n blocks are retained and the rest not drains to its first n blocks |
| Reclaim.RetainedReferenced | src/fuse/fuse.c:215-219 | by the current counts, what survives the drain is exactly the blocks whose ref is non-zero |
| Reclaim.UncappedSweep | src/fuse/fuse.c:263 | a pass with cap 0 frees every unretained block and keeps the order of the rest |
| Reclaim.SweepKeepsRetained | src/fuse/fuse.c:266-270 | a drain pass never frees a retained block |
| Reclaim.SweepFreesUnretained | src/fuse/fuse.c:266-270 | every block a drain pass frees was unretained |
| Reclaim.SweepFixedPoint | src/fuse/fuse.c:216-219 | a pass frees nothing exactly when the cap has been reached or every block is retained |
| Reclaim.SweepIdempotent | src/fuse/fuse.c:216-219 | a second uncapped pass frees nothing, so the do-while loop of fuse_destroy stops after one more pass |
| Value.BuiltinTable | src/fuse/fuse.c:65-177 | fuse_new's table builds every number type with fuse_init_number at the type's width, gives DATA size 0 with the memcpy constructor, and registers exactly the tags up to MAP |
| Value.Builtin | src/fuse/fuse.c:65-177 | the descriptor fuse_new writes for a tag; none has the ADC init or destructor, and only the tags up to MAP are registered |
| Value.StoredNumber | src/fuse/fuse.c:387-421 | fuse_init_number stores a value exactly for the U8..U64, S8..S64 and BOOL tags |
| Value.StoredUnsigned | src/fuse/fuse.c:389-400 | an unsigned tag stores the argument modulo 2^N, in range |
| Value.StoredSigned | src/fuse/fuse.c:401-412 | a signed tag stores the in-range two's-complement value congruent to the argument; S64 goes through the 32-bit intptr_t |
| Value.SignedStoreUnique | src/fuse/fuse.c:401-412 | the range and congruence that StoredSigned promises determine the stored value uniquely |
| Value.StoredBool | src/fuse/fuse.c:413-415 | BOOL stores whether the argument is non-zero |
| Value.BoolTextRoundTrip | src/fuse/fuse.c:485-493 | a rendered bool is one of the two literals and reads back as the value |
| Value.RenderBool | src/fuse/fuse.c:479-494 | fuse_qstr_bool appends the true literal for true and the false literal for false |
| Value.RenderNullJson | src/fuse/fuse.c:472-475 | fuse_qstr_null appends the JSON null literal, moving the index by 4 |
| Value.HexPair | src/fuse/fuse.c:574 | a byte renders as two upper-case hex digits |
| Value.Hex | src/fuse/fuse.c:571-575 | a DATA block renders as two characters per byte |
| Value.HexPairValue | src/fuse/fuse.c:574 | the two digits of a byte's pair, high nibble first, give back the byte |
| Value.HexPairRoundTrip | src/fuse/fuse.c:574 | a single hex pair reads back as its byte |
| Value.HexRoundTrip | src/fuse/fuse.c:571-575 | the hex rendering of a block reads back as its bytes, in order |
| Value.HexDigitsOnly | src/fuse/fuse.c:574 | a hex rendering contains only upper-case hex digits |
| Value.HexSnoc | src/fuse/fuse.c:572-575 | rendering one more byte appends its pair at the end |
| Value.HexPrefix | src/fuse/fuse.c:572-575 | the rendering of the first j+1 bytes is that of the first j followed by byte j's pair |
| Adc.PinForMeaning | src/picofuse/adc.c:190-209 | a channel has a pin exactly when it is below the channel count, is not the temperature channel, and the part has 5 or 8 channels; the pin is then ch+26 or ch+40 |
| Adc.IsTempSensor | src/picofuse/adc.c:182-185 | a channel is the temperature sensor exactly when it is ADC_TEMPERATURE_CHANNEL_NUM (4) |
| Adc.PinFor | src/picofuse/adc.c:190-209 | fuse_adc_gpio for a part with the given channel count; a non-zero pin only for an existing channel other than the temperature sensor |
| Adc.Gpio | src/picofuse/adc.c:190-209 | fuse_adc_gpio on this five-channel part: 0, or a pin from 26 up to 29 |
| Adc.GpioPins | src/picofuse/adc.c:190-209 | on this part the ADC pins are exactly GPIO 26 to 29, for channels 0 to 3, and each pin maps back to its channel |
| Adc.MaskNeverSkips | src/picofuse/adc.c:70-73 | the skip test as written is false for every channel, whatever the mask |
| Adc.Shift | src/picofuse/adc.c:70 | `1 << i` as a number, which is never 0 |
| Adc.SkipAsWritten | src/picofuse/adc.c:70 | the skip test with C precedence: the mask and-ed with the truth value of `(1 << i) == 0` |
| Adc.ScanFrom | src/picofuse/adc.c:68-100 | the channel loop from channel i: skip as written, record the temperature channel, stop with false at a channel without a pin or whose GPIO fails, and otherwise count one GPIO value made |
| Adc.ScanAll | src/picofuse/adc.c:68-100 | the whole channel loop from channel 0 with temp 0 and nothing made |
| Adc.ScanOutcome | src/picofuse/adc.c:68-100 | the channel loop succeeds exactly when channels 0 to 3 all get their GPIO; temp is then the temperature channel, and otherwise 0. On success it has made four GPIO values; on failure one for each channel before the first failing one |
| Adc.GpiosMadeMeaning | src/picofuse/adc.c:43-100 | init leaves four GPIO values when it succeeds, none when it stops before the channel loop, and otherwise one per channel before the first failing one |
| Adc.InitSucceeds | src/picofuse/adc.c:43-100 | fuse_adc_init returns true exactly when the mask is non-zero, no ADC is live and the channel loop gets through |
| Adc.GpiosMade | src/picofuse/adc.c:43-100 | the GPIO values fuse_adc_init creates: none when it returns before the channel loop, otherwise those the loop made |
| Adc.Grown | src/picofuse/adc.c:93 | a list grown by made GPIO values: the old list, then made blocks tagged GPIO with a count of 0 |
| Adc.GrownMembers | src/picofuse/adc.c:93 | a list grown by GPIO values keeps all its blocks, and what it gained is only unretained GPIO blocks; with none made it is unchanged |
| Adc.GrownRemove | src/fuse/fuse.c:321 | freeing a block that was there before the growth keeps the added GPIO blocks at the end |
| Adc.InitSucceedsMeaning | src/picofuse/adc.c:43-100 | init succeeds exactly when the mask is non-zero, no ADC is live and every GPIO channel gets its pin |
| Adc.Driver.constructor | src/picofuse/adc.c:8 | the singleton starts NULL |
| Adc.Driver.Init | src/picofuse/adc.c:34-113 | the result is InitSucceeds. An empty mask fails before anything is written. Otherwise the GPIO slots are zeroed and temp is recorded on success. The singleton is set to the value exactly on success. The live list gains exactly GpiosMade new blocks at its tail, all GPIO values with a count of 0, also when it fails |
| Adc.Driver.Destroy | src/picofuse/adc.c:117-134 | the singleton is reset to NULL |
| Adc.Render | src/picofuse/adc.c:138-152 | appends exactly `{` then `}` |
| Fuse.NormaliseExit | src/fuse/fuse.c:374 | the stored code is never 0, and is the given code when that is non-zero |
| Fuse.ExitStatus | src/fuse/fuse.c:252 | fuse_destroy returns 0 exactly for the success code (or 0), and otherwise the stored code |
| Fuse.ExitRoundTrip | src/fuse/fuse.c:371-375 | a code given to fuse_exit comes back from fuse_destroy unchanged, except that 0 and the success code come back as 0 |
| Fuse.CopiedBytes | src/fuse/fuse.c:436-443 | memcpy init copies n bytes from a pointer argument and zeroes n bytes for NULL; for n = 0 any argument is accepted |
| Fuse.AllocSize | src/fuse/fuse.c:281-291 | the block size fuse_alloc_ex asks for: the argument itself for DATA, otherwise the descriptor size |
| Fuse.Initialise | src/fuse/fuse.c:309-311 | what the tag's init builds: its outcome, the payload and the values it creates on the way; only the ADC init creates any |
| Fuse.InitialiseNumber | src/fuse/fuse.c:387-421 | a number constructor fails exactly for tags that are not numbers, and otherwise stores StoredNumber |
| Fuse.InitialiseAdc | src/picofuse/adc.c:43-100 | an ADC value is built exactly when fuse_adc_init's rules allow it |
| Fuse.BoolRendering | src/fuse/fuse.c:485-493 | a BOOL made from w renders as the true literal exactly when w is non-zero |
| Fuse.WriteHex | src/fuse/fuse.c:571-575 | the write loop appends the hex rendering of the bytes and advances the index by two per byte |
| Fuse.Application.constructor | src/fuse/fuse.h:28-38 | a record with one descriptor slot per tag, two separate callback tables of FUSE_EVENT_COUNT slots, the success exit code and no queues |
| Fuse.Application.Shape | src/fuse/fuse.h:28-38 | one descriptor per tag, two separate callback tables of FUSE_EVENT_COUNT slots, a stored exit code that is never 0, no core 1 queue, and fuse_adc_init only in the ADC slot |
| Fuse.Application.StandardTable | src/fuse/fuse.c:65-182 | the table fuse_new writes: the built-in descriptors up to MAP, then EVENT, MUTEX and TIMER, the rest unregistered; no slot of it has the ADC init or destructor |
| Fuse.Application.HoldsAppend | src/fuse/fuse.c:294 | allocating a block with a known tag keeps the record and the core 0 queue live |
| Fuse.Application.HoldsRemove | src/fuse/fuse.c:346 | freeing a block other than the record keeps the record live, and also core 0's queue when the block is not that queue |
| Fuse.Application.New | src/fuse/fuse.c:39-198 | NULL exactly when one of the allocations or the queue's init fails. Otherwise the live list is [record, core0], both retained once, with the success exit code and the standard descriptor table |
| Fuse.Application.NewRecord | src/fuse/fuse.c:41-62 | after the allocator and the record are created, the record is retained once and is the only live block |
| Fuse.Application.InstallTable | src/fuse/fuse.c:65-182 | fills the built-in descriptors, then EVENT, MUTEX and TIMER, leaving every other slot unregistered |
| Fuse.Application.Abandon | src/fuse/fuse.c:186-191 | when the queue cannot be made, the record is freed and then the allocator, which leaves nothing |
| Fuse.Application.Attach | src/fuse/fuse.c:185-194 | the new list, retained once, becomes the core 0 queue, and core 1 gets none |
| Fuse.Application.AllocEx | src/fuse/fuse.c:276-328 | the block has the tag's size, or the argument's value for DATA. The result is NULL exactly when malloc or init fails. The live list is the old list, then the new ref-0 block holding what init built unless the result is NULL, then the GPIO values init made (only an ADC init makes any) |
| Fuse.Application.Build | src/fuse/fuse.c:308-324 | runs init; on failure the block is freed and the list is as before the allocation plus what init made |
| Fuse.Application.Discard | src/fuse/fuse.c:321-322 | after a failed init exactly the new block leaves the list; the blocks init made stay, in place |
| Fuse.Application.Construct | src/fuse/fuse.c:309-311 | dispatches to the tag's constructor, reports what it returns, and keeps every live block while appending what init made |
| Fuse.Application.InitNumber | src/fuse/fuse.c:382-422 | stores StoredNumber of the block's tag, and returns false without writing for any other tag |
| Fuse.Application.InitMemcpy | src/fuse/fuse.c:426-447 | copies or zeroes the descriptor's size, and returns true |
| Fuse.Application.InitCStr | src/fuse/fuse.c:451-461 | stores the string pointer itself, and returns true |
| Fuse.Application.Free | src/fuse/fuse.c:330-347 | runs the tag's destructor (the ADC's resets the singleton), then unlinks exactly that block |
| Fuse.Application.Drain | src/fuse/fuse.c:257-274 | a pass leaves exactly Sweep of the old list and retained set, and returns the number of blocks freed. The ADC singleton becomes NULL exactly when the pass freed a block whose tag has the ADC destructor, and is otherwise unchanged |
| Fuse.Application.Visit | src/fuse/fuse.c:264-271 | reads next first, then frees the visited block exactly when its ref is 0, which keeps the Sweep equation of the pass. The singleton becomes NULL exactly when that block is freed and its tag has the ADC destructor |
| Fuse.Application.Release | src/fuse/fuse.c:205 | one reference fewer; the block is unlinked exactly when none is left |
| Fuse.Application.DrainAll | src/fuse/fuse.c:215-219 | draining to a fixed point leaves exactly the retained blocks, in list order, all with ref > 0. The singleton becomes NULL exactly when one of the old blocks with ref 0 has the ADC destructor |
| Fuse.Application.Settle | src/fuse/fuse.c:200-219 | core 0 loses one reference and the drain runs to a fixed point: the blocks left are exactly the old ones with ref > 0, and the singleton becomes NULL exactly when an old block other than core 0 with ref 0 has the ADC destructor |
| Fuse.Application.Destroy | src/fuse/fuse.c:200-253 | releases core 0 and returns ExitStatus of the stored code. The blocks still live when the allocator goes are exactly the old blocks with ref > 0 other than the record. The allocator is left empty. The singleton becomes NULL exactly when the drain frees an ADC, that is when an old block other than core 0 with ref 0 has the ADC destructor; a retained ADC leaves it unchanged although its block is gone |
| Fuse.Application.Exit | src/fuse/fuse.c:371-375 | stores the given code, or the success code for 0 |
| Fuse.Application.Run | src/fuse/fuse.c:349-369 | a non-zero result of the entry point becomes the exit code; otherwise the code is left unchanged by Run, and the idle loop is never entered because the stored code is never 0 |
| Fuse.Application.RegisterType | src/picofuse/adc.c:26 | installs the descriptor under an unregistered tag, leaves a registered one as it is, and leaves every other slot unchanged |
| Fuse.Application.CStrData | src/fuse/fuse.c:557-579 | a zero-size DATA block renders nothing and returns the index unchanged; otherwise each byte renders as its hex pair, in order |
| AdcValue.AdcDescriptor | src/picofuse/adc.c:168-171 | after the check, the ADC slot holds what was registered, or the ADC descriptor if nothing was |
| AdcValue.AdcDescriptorCallbacks | src/picofuse/adc.c:17-25 | the ADC descriptor builds values with fuse_adc_init, tears them down with fuse_adc_destroy and accepts the configuration |
| AdcValue.RegisterAdc | src/picofuse/adc.c:15-27 | installs the ADC descriptor unless the slot is registered already, and leaves every other slot unchanged |
| AdcValue.NewAdcEx | src/picofuse/adc.c:163-174 | registers the ADC type only if it is unregistered, then allocates. While the ADC descriptor is in place, a value is made exactly when the mask is non-zero, no ADC is live and every channel gets its GPIO, and the value then becomes the singleton. The live list gains the value, if made, followed by the GPIO blocks init made, made or not |
| AdcValue.FailedAdcLeavesGpios | src/picofuse/adc.c:93-98 | when channel 2's GPIO fails no ADC is made, two unretained GPIO blocks are left on the list, and the next drain frees exactly those two |
| AdcValue.RequestFailing | src/picofuse/adc.c:92-97 | with channel 2's GPIO failing, no ADC is made and the list gains two unretained GPIO blocks |
| AdcValue.DrainClearsAdc | src/picofuse/adc.c:117-134 | an unretained ADC is freed by the next drain, and its destructor sets the singleton back to NULL |
| AdcValue.RetainedAdcOutlivesDestroy | src/fuse/fuse.c:200-253 | an ADC retained when the application is destroyed is released without its destructor, so the singleton still names it after fuse_destroy with no block left |
| AdcValue.RequestAdc | src/picofuse/adc.c:43-113 | on a fresh application the ADC is made unretained and becomes the singleton, the ADC slot holds the ADC descriptor, and the GPIO values made with it have no ADC destructor |
| AdcValue.EmptyMask | src/picofuse/adc.c:43-47 | an ADC asked for with an empty channel mask is never made |
| AdcValue.OneAtATime | src/picofuse/adc.c:57-61 | a second ADC is refused while the first is live, and one can be made again after the first is freed |
| FuseMap.Empty | tests/map/main.c:12-22 | a new map has occupancy 0 and the requested capacity |
| FuseMap.Lookup | tests/map/main.c:53 | fuse_map_get: in a well-formed table the result is NULL exactly when the key is absent |
| FuseMap.Put | tests/map/main.c:43-66 | a set keeps the capacity |
| FuseMap.PutFails | tests/map/main.c:43-48 | a set fails exactly when it needs a new slot in a full table, and then changes nothing |
| FuseMap.PutLookup | tests/map/main.c:51-56 | after a successful set, get of that key gives the value set, and every other key is unchanged |
| FuseMap.PutOccupancy | tests/map/main.c:59-66 | occupancy rises by one for a new key and falls by one when a present key is set to NULL; otherwise it is unchanged |
| FuseMap.PutWf | tests/map/main.c:43-66 | every set keeps occupancy within capacity and no NULL value stored |
| FuseMap.RemoveIdempotent | tests/map/main.c:59-66 | setting a key to NULL a second time changes nothing |
| FuseMap.Map.constructor | tests/map/main.c:12 | a new map is empty, with the given capacity |
| FuseMap.Map.Set | tests/map/main.c:46 | fuse_map_set does what Put says and keeps the table well formed |
| FuseMap.Map.Get | tests/map/main.c:53 | returns the stored value, and NULL for a missing key |
| FuseMap.Map.Stats | tests/map/main.c:17-22 | returns the occupancy, fills the capacity only when asked, and changes nothing |
| FuseMap.NewMap | tests/map/main.c:12 | a MAP value is allocated and appended to the live list, with an empty table of the requested capacity |
| FuseMap.DestroyMap | tests/map/main.c:25 | the map's block is freed, and only it |
| MapTests.NothingLeaked | tests/map/main.c:28 | once the map is gone and core 0 is released, fuse_destroy leaves no block behind |
| MapTests.Start | tests/map/main.c:6-13 | the application and a map of capacity 10 are made, and the map is the only value besides the record and the core 0 queue |
| MapTests.Finish | tests/map/main.c:25-28 | destroying the map and then the application returns 0 with nothing leaked |
| MapTests.Test001 | tests/map/main.c:4-29 | every assertion of TEST_001 holds, and it returns 0 with nothing leaked |
| MapTests.InsertAll | tests/map/main.c:43-48 | setting keys 1 to 10 succeeds, with occupancy i after the i-th set |
| MapTests.ReadAll | tests/map/main.c:51-56 | each of keys 1 to 10 reads back as itself |
| MapTests.RemoveAll | tests/map/main.c:59-66 | setting keys 1 to 10 to NULL succeeds, each reads back NULL, and occupancy falls to 10 - i, ending empty |
| MapTests.Test002 | tests/map/main.c:31-73 | every assertion of TEST_002 holds, and it returns 0 with nothing leaked |

## Left out

- Hardware calls (`adc_init`, `adc_set_temp_sensor_enabled`, `sleep_ms`) do nothing in the model.
- Adc.Driver.Init: fuse_new_gpio_ex is not part of this model. Whether it fails for a channel is a parameter. When it does not fail, it is taken to append one block tagged GPIO with a placeholder size and a count of 0. When it fails, it is taken to leave nothing behind. The GPIO type's registration, its init and what it does to the pin are not modelled.
- Floating point: F32/F64 values are copied byte-wise as the code does, but their rendering (`ftostr_internal`) and the ADC's voltage and temperature maths are not modelled.
- The text helpers whose bodies are not shown (`utostr_internal`, `itostr_internal`, `cstrtostr_internal`, `qstrtostr_internal`, `b64tostr_internal`) become plain appends onto a `Sink`. Buffer size and truncation are not modelled. Number, C string, list and base64 renderers are not modelled.
- Event, list, mutex and timer behaviour is not part of this model. Their constructors' outcome is a parameter, and fuse_new is taken to make the core 0 queue with `fuse_alloc_ex(LIST, NULL)`.
- The map's implementation is not part of this model. Three choices the tests do not pin down are made here: setting an absent key to NULL succeeds and changes nothing, key 0 is an ordinary key, and a full map refuses new keys.
- fuse_map_new and fuse_map_destroy are not shown; they are taken to be fuse_alloc_ex of a MAP value and fuse_free of it. fuse_new_value_ex is taken to be fuse_alloc_ex.
- Fuse.Application.Release: fuse_release is not shown. It is modelled as the allocator's release of a non-NULL value, and the release of the NULL core 1 queue does nothing.
- Fuse.Application.Destroy: the DEBUG leak walk is diagnostics only (it also reads the record after freeing it), so it is not modelled. The blocks it would report are the ghost result `leaked`, and its FUSE_EXIT_MEMORYLEAKS code is not modelled.
- Descriptor slots fuse_new does not write: C leaves them as malloc left them; the model makes them `Unregistered` (no name).
- Fuse.Application.constructor: fuse_new never writes `callbacks0`, `callbacks1` or `drain`, so C leaves them as malloc left them. The model starts them as `NoCallback` and false, because nothing in this model reads them.
- Fuse.Application.Run: the entry point is reduced to the value it returns. What it does to the application while it runs (allocations, retains, its own calls to fuse_exit) is not modelled; only its result reaches Run.
- Fuse.Application.RegisterType: fuse_register_value_type and fuse_is_registered_value are not shown. The model takes a slot to be registered when its name is non-empty. Registering under an unregistered tag installs the descriptor, and registering under a registered tag is a no-op. The model also requires that only the ADC tag gets fuse_adc_init, which is static in adc.c.
- Adc.ADC_DESC: src/picofuse/adc.c:24 sets `.str = fuse_adc_str`, but `struct fuse_value_desc` (src/fuse/fuse.h:16-24) has no `str` field, only `cstr` and `qstr`. fuse_adc_str also takes an extra `bool json` parameter that the descriptor's renderer type lacks. The model installs `AdcStr` as both renderers; the body never reads the flag.
- Alloc.Allocator.Malloc: `malloc(sizeof(header) + size)` is computed in 32-bit `size_t`. For a DATA size within a header's size of 2^32 that sum wraps, and C would get a block too small for the size it records. The model's sizes are unbounded, so it does not capture that wrap.
- Pointer arithmetic between a header and its payload, and the `headptr`/`tailptr` accessors, are not modelled: each block is an abstract object identity. The `file`/`line` debug fields are not modelled either.
- Function-pointer tables become closed tags (`InitFn`, `DestroyFn`, `RenderFn`) dispatched with `match`.
- Interrupt-driven concurrency and per-core dispatch are not modelled; the model is sequential.
- `sizeof` values whose types are not shown (the application record, list, map, event, mutex, timer) are placeholder constants. No proof depends on them.
- Alloc.Allocator.Forward and Alloc.Allocator.Backward take a step bound (`fuel`), because a pointer walk has no structural measure. TraversalsAgree holds for every bound at least the list length.
