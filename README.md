# smartqua core, modelled in Dafny

This project models the in-memory logic of the smartqua aquarium controller firmware and of
the CO2 bottle scale's web interface, and proves what that logic promises.

- **Fixed-capacity containers.** The ring buffer, the optional-slot array, the resource
  lookup table with its release-on-drop trackers (whose defaulted move leaves both trackers armed), the bitset, the stack string and the large
  buffer pool. Each is a class over an `array` (or a sequence of buffer objects) with the
  invariant its methods keep.
- **Checked numeric assignment.** `checkAssign` and its range predicates, with C++ integer
  types, promotions and casts written out.
- **Weekly scheduling.**
  - Weekday and time-of-day arithmetic.
  - The sorted day schedule and the week-wide event search.
  - The hold, single-shot and interpolation tracker rules.
  - The schedule tracker's per-channel times.
- **Slot registries.** The event access array, the task pool with its earliest-due
  selection, and the address, statistics and soft-timer registries of the drivers.
- **Driver decisions.**
  - The switch driver's bound selection and write gating.
  - Parent-directory extraction.
  - Schedule id packing and day-schedule parsing.
  - PCF8575 pin validation.
- **Bottle-scale views.**
  - The home view's used and available CO2.
  - The shared context's setters.
  - The settings form's `isNaN` guard and its save rules.

There is one file and one module per source file, plus `Wrappers.dfy` (`Option`, and `Expected` for a value or an error),
`DeviceTypes.dfy` (the value and result types the drivers exchange) and `Algorithms.dfy` (the
`std::min`, `std::abs` and `std::find` the sources share). Where the source
keeps state in place, the model is a class. Each of its methods is stated against a
specification function of the old state, and the lemmas prove the source's promises on
that function. Locks, threads, clocks, hardware transfers, JSON and regular-expression
parsing, and network requests are not modelled. Their outcomes are parameters of the
operations that use them.

## Model

| member | source | states |
|---|---|---|
| Algorithms.Min | smartaq/utils/stack_string.h:73 | `std::min`: the smaller of the two values, bounded by both |
| Algorithms.Abs | smartaq/drivers/stats_driver.h:218 | `std::abs` on whole numbers: a non-negative value equal to the argument or its negation |
| Algorithms.Magnitude | smartaq/drivers/switch_driver.h:249 | `std::fabs`, and `Math.abs` in the scale's views: a non-negative number equal to the value or its negation |
| Algorithms.Find | smartaq/drivers/stats_driver.h:132 | `std::find`: the first position holding the value, with every earlier position different, and none exactly when no position holds it; the key, name, address, pointer, free-slot and available-buffer searches are all this search |
| Bitsets.StorageBits | smartaq/utils/container/bitset.h:6-16 | the storage is the narrowest of 8, 16, 32 or 64 bits that holds `Length` flags |
| Bitsets.ClearBit | smartaq/utils/container/bitset.h:19-21 | masking with `~(1 << bit)` clears exactly that bit and never increases the value |
| Bitsets.OrBit | smartaq/utils/container/bitset.h:20-21 | or-ing `(value & 1) << bit` sets that bit when `value` is true and keeps every other bit |
| Bitsets.SetBit | smartaq/utils/container/bitset.h:18-22 | after `set(bit, value)` the bit reads `value` and every other bit is unchanged |
| Bitsets.SetBitWithinWidth | smartaq/utils/container/bitset.h:16-22 | `set` on a bit inside the storage width never carries out of the storage type |
| Bitsets.Bitset.constructor | smartaq/utils/container/bitset.h:32 | a new bitset (`data{0}`) has no flag set |
| Bitsets.Bitset.Set | smartaq/utils/container/bitset.h:18-22 | the chosen flag takes the value and the other flags keep theirs |
| Bitsets.Bitset.Test | smartaq/utils/container/bitset.h:28-30 | `test(bit)` is the binary digit of weight `1 << bit` of the storage |
| Bitsets.Bitset.Invert | smartaq/utils/container/bitset.h:24-26 | the chosen flag flips and the other flags keep theirs |
| Bitsets.ZeroHasNoBits | smartaq/utils/container/bitset.h:28-32 | `test` on the zero value is false for every bit |
| OptionalArrays.Occupied | smartaq/utils/container/fixed_size_optional_array.h:73-82 | the number of occupied slots never exceeds the size |
| OptionalArrays.OccupiedZero | smartaq/utils/container/fixed_size_optional_array.h:35-38 | the count is zero exactly when every slot is empty, which is what `empty()` reports |
| OptionalArrays.OccupiedFull | smartaq/utils/container/fixed_size_optional_array.h:73-82 | the count equals the size exactly when every slot is occupied |
| OptionalArrays.OccupiedAfterUpdate | smartaq/utils/container/fixed_size_optional_array.h:55-67 | filling an empty slot adds one to the count, emptying an occupied one removes one, other writes keep it |
| OptionalArrays.FirstEmpty | smartaq/utils/container/fixed_size_optional_array.h:91 | the slot `find_if` stops at: empty, with every slot before it occupied; none exactly when all are occupied |
| OptionalArrays.FixedSizeOptionalArray.constructor | smartaq/utils/container/fixed_size_optional_array.h:14 | every slot of a new array is empty |
| OptionalArrays.FixedSizeOptionalArray.Get | smartaq/utils/container/fixed_size_optional_array.h:21-24 | `operator[]` yields the slot at the index |
| OptionalArrays.FixedSizeOptionalArray.Size | smartaq/utils/container/fixed_size_optional_array.h:30-32 | the size is the fixed number of slots |
| OptionalArrays.FixedSizeOptionalArray.Count | smartaq/utils/container/fixed_size_optional_array.h:73-82 | the loop counts exactly the occupied slots |
| OptionalArrays.FixedSizeOptionalArray.Empty | smartaq/utils/container/fixed_size_optional_array.h:35-38 | true exactly when no slot is occupied |
| OptionalArrays.FixedSizeOptionalArray.Clear | smartaq/utils/container/fixed_size_optional_array.h:43-48 | every slot is empty afterwards |
| OptionalArrays.FixedSizeOptionalArray.Insert | smartaq/utils/container/fixed_size_optional_array.h:55-58 | only the slot at the index changes, to the value |
| OptionalArrays.FixedSizeOptionalArray.Erase | smartaq/utils/container/fixed_size_optional_array.h:64-67 | only the slot at the index changes, to empty |
| OptionalArrays.FixedSizeOptionalArray.Append | smartaq/utils/container/fixed_size_optional_array.h:89-98 | succeeds exactly when a slot is empty, fills the first empty one, and the count grows by one; on failure nothing changes |
| LookupTables.ResourceLookupTable.constructor | smartaq/utils/container/lookup_table.h:43-44 | the keys are the template's list and every flag starts false |
| LookupTables.ResourceLookupTable.SetIfValue | smartaq/utils/container/lookup_table.h:46-61 | compare-and-set: when the key exists and its flag equals `oldValue` the flag becomes `newValue` and the tracker restores `oldValue`; otherwise nothing changes and the tracker is empty |
| LookupTables.ResourceLookupTable.SetIf | smartaq/utils/container/lookup_table.h:63-75 | sets the key's flag when the key exists, changes nothing otherwise, and always returns an empty tracker |
| LookupTables.ResourceLookupTable.Release | smartaq/utils/container/lookup_table.h:27-31 | a tracker with a holder and an index writes its reset value back; an empty tracker changes nothing |
| LookupTables.ExclusiveAcquisition | smartaq/utils/container/lookup_table.h:23-61 | a key acquired from false to true cannot be acquired again until its tracker is released, and can be afterwards |
| LookupTables.MoveAsWritten | smartaq/utils/container/lookup_table.h:17-18 | the defaulted move leaves the moved-from tracker equal to the moved-to one, so both still hold the key |
| LookupTables.Move | smartaq/utils/container/lookup_table.h:17-18 | the corrected move hands the tracker over and leaves the moved-from tracker empty |
| LookupTables.MovedFromReleaseFreesHeldKey | smartaq/drivers/bme280_driver.cpp:54-63 | with the defaulted move, destroying the moved-from tracker frees the key, and it is acquired again while the moved-to tracker still holds it |
| LookupTables.MovePreservesExclusiveAcquisition | smartaq/utils/container/lookup_table.h:17-31 | with the corrected move, destroying the moved-from tracker leaves the key taken until the moved-to tracker is released, and free afterwards |
| StackStrings.CStr | smartaq/utils/stack_string.h:95-109 | the characters before the first NUL: a prefix with no NUL |
| StackStrings.CStrEndsAtFirstNul | smartaq/utils/stack_string.h:95-109 | a NUL-free prefix that ends at a NUL or at the end is the C string |
| StackStrings.SafeStrlen | smartaq/utils/stack_string.h:10-19 | the length is at most `maxLength`, no NUL comes before it, and a length below `maxLength` stops at a NUL |
| StackStrings.StackString.FromView | smartaq/utils/stack_string.h:51-78 | a string built from a view holds its first `Size - 1` characters |
| StackStrings.StackString.AssignView | smartaq/utils/stack_string.h:71-78 | copies `min(Size - 1, size)` characters, stores the terminator after them and leaves the rest of the array alone |
| StackStrings.StackString.AssignCString | smartaq/utils/stack_string.h:80-87 | copies the C string measured by `safe_strlen(other, Size)`, truncated to `Size - 1` characters, and terminates it |
| StackStrings.StackString.Capacity | smartaq/utils/stack_string.h:90-93 | the capacity is the array size |
| StackStrings.StackString.Len | smartaq/utils/stack_string.h:95-98 | the length of the stored C string, at most `Size` when no terminator is stored |
| StackStrings.StackString.GetStringView | smartaq/utils/stack_string.h:106-109 | the view holds exactly the characters before the terminator |
| StackStrings.CStrPrefix | smartaq/utils/stack_string.h:95-109 | a NUL-free prefix of `n` characters is a prefix of the C string |
| RingBuffers.Appended | smartaq/utils/container/ring_buffer.h:23-33 | `append` on a buffer with room adds the value at the back; on a full buffer it drops the oldest value, keeps the size and puts the value at the back |
| RingBuffers.AppendedAll | smartaq/utils/container/ring_buffer.h:23-33 | repeated appends never hold more than `N` values |
| RingBuffers.AppendedAllKeepsNewest | smartaq/utils/container/ring_buffer.h:23-33 | after any run of appends the buffer holds exactly the newest `min(N, count)` values in order |
| RingBuffers.RingBuffer.RealIndex | smartaq/utils/container/ring_buffer.h:83-85 | `calculateRealIndex` is always a slot of the array, and the slot `offset + n` wrapped once for a position inside the capacity |
| RingBuffers.RingBuffer.constructor | smartaq/utils/container/ring_buffer.h:87-89 | a new buffer (`N > 1`, offset and size 0) holds no values |
| RingBuffers.RingBuffer.At | smartaq/utils/container/ring_buffer.h:15-21 | `operator[]` of a stored position yields the value at that position counted from the front |
| RingBuffers.RingBuffer.Empty | smartaq/utils/container/ring_buffer.h:35-37 | true exactly when no value is stored |
| RingBuffers.RingBuffer.Size | smartaq/utils/container/ring_buffer.h:80 | the number of stored values |
| RingBuffers.RingBuffer.Front | smartaq/utils/container/ring_buffer.h:72-74 | the oldest value of a non-empty buffer |
| RingBuffers.RingBuffer.Back | smartaq/utils/container/ring_buffer.h:76-78 | the newest value of a non-empty buffer |
| RingBuffers.RingBuffer.Append | smartaq/utils/container/ring_buffer.h:23-33 | the stored values become `Appended` of the old ones: the value at the back, the oldest dropped when full |
| RingBuffers.RingBuffer.RemoveFront | smartaq/utils/container/ring_buffer.h:39-45 | drops the oldest value; an empty buffer is left alone |
| RingBuffers.RingBuffer.RemoveBack | smartaq/utils/container/ring_buffer.h:47-52 | drops the newest value; an empty buffer is left alone |
| RingBuffers.RingBuffer.TakeBack | smartaq/utils/container/ring_buffer.h:54-61 | returns and drops the newest value; none and no change on an empty buffer |
| RingBuffers.RingBuffer.TakeFront | smartaq/utils/container/ring_buffer.h:63-70 | returns and drops the oldest value; none and no change on an empty buffer |
| CheckAssign.Cast | smartaq/utils/check_assign.h:27 | `static_cast` to an integral type yields the value of that type congruent to the input modulo 2^bits, the input itself when it fits |
| CheckAssign.Promote | smartaq/utils/check_assign.h:45-53 | integral promotion widens narrow types to `int` and keeps every value |
| CheckAssign.Common | smartaq/utils/check_assign.h:45-53 | the usual arithmetic conversions pick a valid integral type for a mixed comparison |
| CheckAssign.CanBeExpressedInType | smartaq/utils/check_assign.h:22-28 | `canBeExpressedInType` accepts every value that fits the target, and a value that does not fit only from an unsigned source into a signed target no wider than it |
| CheckAssign.ExpressibleButOutOfRange | smartaq/utils/check_assign.h:22-28 | `canBeExpressedInType<int32_t>(2147483648u)` holds although the value does not fit |
| CheckAssign.IsContainedInType | smartaq/utils/check_assign.h:30-40 | `IsContainedInType<T, T2>` holds whenever every value of `T2` fits in `T` (the exact condition is `ContainedCharacterized`) |
| CheckAssign.ContainedCharacterized | smartaq/utils/check_assign.h:30-40 | `IsContainedInType<T, T2>` holds exactly when every value of `T2` round-trips through `T`, stated by signedness and width |
| CheckAssign.WrapsToMinusOne | smartaq/utils/check_assign.h:27-36 | the maximum of an unsigned type casts to -1 in a signed type no wider than it, and back |
| CheckAssign.IsInRange | smartaq/utils/check_assign.h:42-46 | when the comparison type holds the value and both bounds, `isInRange` is exactly `min <= value <= max` |
| CheckAssign.IsInRangeNoCheck | smartaq/utils/check_assign.h:48-54 | only a value that survives the round trip into the bounds' type passes, and when the comparison type holds it and both bounds, it passes exactly when it lies between them |
| CheckAssign.NegativeInUnsignedRange | smartaq/utils/check_assign.h:42-46 | `isInRange(-1, 0u, UINT32_MAX)` holds for an `int`, since the comparison converts -1 to `UINT32_MAX` |
| CheckAssign.CommonSymmetric | smartaq/utils/check_assign.h:45-53 | the comparison type does not depend on the order of the operands |
| CheckAssign.CommonHolds | smartaq/utils/check_assign.h:45-53 | a value keeps its meaning in the comparison type when that type is signed or the value is not negative |
| CheckAssign.CastNegative | smartaq/utils/check_assign.h:53 | a negative value converted to an unsigned comparison type becomes `v + 2^bits` |
| CheckAssign.TrapRejects | smartaq/utils/check_assign.h:48-60 | for an unsigned value of 32 or more bits and a signed target no wider, the two limit comparisons exclude each other, so every value is rejected |
| CheckAssign.NegativeRejected | smartaq/utils/check_assign.h:22-54 | a negative value whose comparison runs unsigned is already rejected by the sign test |
| CheckAssign.ExactComparisons | smartaq/utils/check_assign.h:48-54 | when the comparison type holds the value and both limits, the check is exactly "the value fits" |
| CheckAssign.ExactOutsideTrap | smartaq/utils/check_assign.h:56-60 | outside the mixed-sign case, `isInRangeNoCheck` against the limits of the type is exactly "the value fits" |
| CheckAssign.IsWithinLimitsForTypeAsWritten | smartaq/utils/check_assign.h:56-60 | `isWithinLimitsForType` as written rejects every value in the mixed-sign case and is exactly "the value fits" otherwise |
| CheckAssign.UnsignedFiveRejected | smartaq/utils/check_assign.h:56-60 | `isWithinLimitsForType<int32_t>(5u)` is false although 5 fits |
| CheckAssign.IsWithinLimitsForType | smartaq/utils/check_assign.h:56-60 | corrected: a value is within the limits of a type exactly when converting it to that type keeps it |
| CheckAssign.CheckAssign | smartaq/utils/check_assign.h:62-71 | corrected: assigns and reports success exactly when the value fits the destination type, otherwise the destination keeps its value; as written, `checkAssign<int32_t>(d, 5u)` fails (`UnsignedFiveRejected`) |
| TimeUtils.GetPreviousDay | smartaq/utils/time/time_utils.cpp:10-16 | Sunday wraps to Saturday and every other day steps back by one; weekdays stay weekdays |
| TimeUtils.GetNextDay | smartaq/utils/time/time_utils.cpp:18-24 | Saturday wraps to Sunday and every other day steps forward by one in the 32-bit underlying type; weekdays stay weekdays |
| TimeUtils.NextPreviousInverse | smartaq/utils/time/time_utils.cpp:10-24 | on weekdays `getNextDay` and `getPreviousDay` undo each other |
| TimeUtils.NextDayIterated | smartaq/utils/time/time_utils.cpp:18-24 | stepping forward any number of times stays on a weekday |
| TimeUtils.PreviousDayIterated | smartaq/utils/time/time_utils.cpp:10-16 | stepping back any number of times stays on a weekday |
| TimeUtils.NextDayIteratedIsModular | smartaq/utils/time/time_utils.cpp:18-24 | `n` steps forward land on `(d + n) mod 7` |
| TimeUtils.PreviousDayIteratedIsModular | smartaq/utils/time/time_utils.cpp:10-16 | `n` steps back land on the day that is `n` days before, modulo 7 |
| TimeUtils.WeekOfStepsForward | smartaq/utils/time/time_utils.cpp:18-24 | a whole number of weeks of forward steps returns to the start |
| TimeUtils.WeekOfStepsBack | smartaq/utils/time/time_utils.cpp:10-16 | a whole number of weeks of backward steps returns to the start |
| TimeUtils.GetDayOfWeek | smartaq/utils/time/time_utils.cpp:5-8 | `tm_wday` cast to the weekday enum: a weekday for a valid `tm`, wrapped modulo 2^32 for a negative field |
| TimeUtils.TimeOfDay | smartaq/utils/time/time_utils.h:18-23 | `getTimeOfDay` of a valid `tm` lies within one day, and below it without a leap second |
| TimeUtils.TimeOfDayDecodes | smartaq/utils/time/time_utils.h:18-23 | hour, minute and second can be read back from the seconds of the day |
| TimeUtils.SinceWeekBeginning | smartaq/utils/time/time_utils.h:31-36 | the time since Sunday midnight lies within one week, and below it without a leap second |
| TimeUtils.SinceWeekBeginningDecodes | smartaq/utils/time/time_utils.h:31-36 | the weekday and the time of day can be read back from it |
| TimeUtils.LeapSecondReachesFullWeek | smartaq/utils/time/time_utils.h:31-36 | Saturday 23:59:60 reaches exactly one full week |
| TimeUtils.SinceWeekBeginningNowAsWritten | smartaq/utils/time/time_utils.h:38-41 | the zero-argument form returns only the time of day |
| TimeUtils.SinceWeekBeginningNow | smartaq/utils/time/time_utils.h:31-41 | the zero-argument form as intended adds the whole days since Sunday, and stays within one week |
| TimeUtils.NowAsWrittenLosesDayOffset | smartaq/utils/time/time_utils.h:38-41 | on every day but Sunday the written form and the intended form differ |
| TimeUtils.NowAsWrittenMondayExample | smartaq/utils/time/time_utils.h:38-41 | Monday 10:00 gives 36000 s as written and 122400 s as intended |
| DaySchedules.FirstWhere | smartaq/utils/time/day_schedule.h:26 | `std::ranges::find_if`: the first slot satisfying the test, none exactly when no slot does |
| DaySchedules.LastWhere | smartaq/utils/time/day_schedule.h:94-97 | `find_if` over the reversed range: the last slot satisfying the test, none exactly when no slot does |
| DaySchedules.FindTime | smartaq/utils/time/day_schedule.h:24-36 | `findSlotWithTime`: the first slot holding exactly the time, none exactly when no slot does |
| DaySchedules.InsertRejectsInvalidTime | smartaq/utils/time/day_schedule.h:44-55 | a point at `InvalidTime` is never stored, because the free slot counts as a duplicate |
| DaySchedules.InsertAcceptedCharacterized | smartaq/utils/time/day_schedule.h:44-55 | an insert succeeds exactly when some slot is free and no slot holds the time |
| DaySchedules.PermutationKeepsTimes | smartaq/utils/time/day_schedule.h:38-42 | reordering the slots keeps the set of scheduled times |
| DaySchedules.FillFreeSlotTimes | smartaq/utils/time/day_schedule.h:57-58 | storing a point in a free slot schedules exactly one more time |
| DaySchedules.InsertIntoSorted | smartaq/utils/time/day_schedule.h:38-42 | one insertion step extends the sorted prefix, permutes the slots and leaves the rest alone |
| DaySchedules.SortByTime | smartaq/utils/time/day_schedule.h:38-42 | `reorderSchedule` leaves the slots sorted by time and is a permutation of them |
| DaySchedules.DaySchedule.constructor | smartaq/utils/time/day_schedule.h:18-22 | every slot starts at `InvalidTime` with every channel empty, so no time is scheduled |
| DaySchedules.DaySchedule.InsertTimePoint | smartaq/utils/time/day_schedule.h:44-61 | succeeds exactly when a slot is free and the time is new; then the first free slot takes the point, the slots are re-sorted and the time is added; on failure nothing changes |
| DaySchedules.DaySchedule.RemoveTimePoint | smartaq/utils/time/day_schedule.h:63-74 | succeeds exactly when the time is scheduled; then that slot is marked unused (its channel data stay) and the slots are re-sorted; otherwise nothing changes |
| DaySchedules.DaySchedule.GetFirstTimePointOfDay | smartaq/utils/time/day_schedule.h:76-81 | slot 0 when it is used, and then it is the earliest; none means every slot is unused |
| DaySchedules.DaySchedule.GetLastTimePointOfDay | smartaq/utils/time/day_schedule.h:83-90 | the slot just before the first unused one, the latest used time; none exactly when slot 0 is unused |
| DaySchedules.DaySchedule.GetCurrentTimePointOfDay | smartaq/utils/time/day_schedule.h:92-104 | the latest used slot at or before the time; none when there is none |
| DaySchedules.DaySchedule.GetNextTimePointOfDay | smartaq/utils/time/day_schedule.h:106-119 | the earliest used slot after the time; none when there is none |
| DaySchedules.ChannelFirst | smartaq/utils/time/schedule.h:150 | the earliest used slot with a value for the channel; none exactly when no slot has one |
| DaySchedules.ChannelLast | smartaq/utils/time/schedule.h:153 | the latest used slot with a value for the channel; none exactly when no slot has one |
| DaySchedules.ChannelCurrent | smartaq/utils/time/schedule.h:135 | the latest slot at or before the time with a value for the channel; none exactly when there is none |
| DaySchedules.ChannelNext | smartaq/utils/time/schedule.h:133 | the earliest slot after the time with a value for the channel; none exactly when there is none |
| WeekSchedules.CreateSingleChannelStatus | smartaq/utils/time/schedule.h:86-95 | the event time is the day's offset in whole days plus the time of day, both recoverable from it, and the data is the channel's value |
| WeekSchedules.InDayLookup | smartaq/utils/time/schedule.h:132-136 | the lookup on the start day returns a used slot with a value for the channel |
| WeekSchedules.AdjacentLookup | smartaq/utils/time/schedule.h:148-154 | the lookup on a further day finds a slot with a value for the channel exactly when that day has one |
| WeekSchedules.StepDay | smartaq/utils/time/schedule.h:148-153 | each pass moves to the next day (next event) or to the previous day (current event), modulo 7 |
| WeekSchedules.VisitedDay | smartaq/utils/time/schedule.h:147-156 | the day reached after several passes is a weekday |
| WeekSchedules.SearchDays | smartaq/utils/time/schedule.h:147-156 | a result of the day loop is a slot with a value for the channel on a weekday |
| WeekSchedules.SearchPass | smartaq/utils/time/schedule.h:147-156 | one pass of the loop steps one day and looks it up |
| WeekSchedules.SearchDaysCharacterized | smartaq/utils/time/schedule.h:147-156 | the loop finds nothing exactly when none of the days it visits has a value for the channel |
| WeekSchedules.SevenPassesVisitEveryDay | smartaq/utils/time/schedule.h:147-156 | seven passes in either direction visit every day of the week |
| WeekSchedules.ChannelStatus | smartaq/utils/time/schedule.h:129-163 | with `OnlyThisDay` a channel has an event exactly when its start day has one; no event at all implies none on the start day |
| WeekSchedules.EventStatus | smartaq/utils/time/schedule.h:115-167 | one entry per channel; an invalid start day gives no event for any channel, otherwise each entry is the channel's status |
| WeekSchedules.IntendedSearchFindsAnyEvent | smartaq/utils/time/schedule.h:147-156 | with eight passes and `AllDays` a channel has no event exactly when no day of the week has a value for it |
| WeekSchedules.AsWrittenMissesFifthDay | smartaq/utils/time/schedule.h:147-155 | with the double increment only four passes run: from Monday an event on Saturday is missed, while eight passes find it |
| WeekSchedules.WeekSchedule.constructor | smartaq/utils/time/schedule.h:48 | every day starts as a default day schedule with no time scheduled |
| WeekSchedules.WeekSchedule.SetDaySchedule | smartaq/utils/time/schedule.h:72-81 | a day index of 7 or more changes nothing; otherwise that day is replaced by a copy of the schedule |
| WeekSchedules.WeekSchedule.SearchPassStep | smartaq/utils/time/schedule.h:148-154 | one pass steps to the adjacent day and looks it up |
| WeekSchedules.WeekSchedule.DaySearchLoopAsWritten | smartaq/utils/time/schedule.h:147-156 | the loop as written, with `daysSearched` incremented twice per pass, makes at most four passes |
| WeekSchedules.WeekSchedule.DaySearchLoop | smartaq/utils/time/schedule.h:147-156 | the loop with one increment per pass makes at most eight passes |
| WeekSchedules.WeekSchedule.ChannelEventStatus | smartaq/utils/time/schedule.h:129-163 | corrected: the per-channel body computes `ChannelStatus` with eight passes, where the code as written runs four |
| WeekSchedules.WeekSchedule.FindEventStatus | smartaq/utils/time/schedule.h:115-167 | corrected: `findEventStatus` computes `EventStatus` for every channel with the eight-pass day search, not the four passes of the code as written |
| WeekSchedules.WeekSchedule.CurrentEventStatus | smartaq/utils/time/schedule.h:63-70 | corrected: the current and the next status of every channel for the same time and day, both from the eight-pass day search |
| TrackerTypes.HoldValue | smartaq/utils/time/schedule_tracker_types.h:25-33 | the hold tracker always yields a value |
| TrackerTypes.HoldDependsOnlyOnCurrent | smartaq/utils/time/schedule_tracker_types.h:29-32 | holding yields the current event's data, whatever the next event, the channel time or the clock |
| TrackerTypes.SingleShotValue | smartaq/utils/time/schedule_tracker_types.h:73-100 | a single shot, when it fires, yields the current event's data |
| TrackerTypes.SingleShotFiresIffEventAfterUpdate | smartaq/utils/time/schedule_tracker_types.h:80-99 | for times within one week, the single shot fires exactly when the event lies after the channel's last update on the time line that ends now (wrapping over the week's end) |
| TrackerTypes.SingleShotSilentAfterUpdate | smartaq/utils/time/schedule_tracker_types.h:80-99 | once the channel time equals now, the single shot yields nothing |
| TrackerTypes.SingleShotAfterWrapAround | smartaq/utils/time/schedule_tracker_types.h:85-93 | an update late in the previous week followed by an event early in this week fires |
| TrackerTypes.InterpolationValue | smartaq/utils/time/schedule_tracker_types.h:35-71 | interpolation yields nothing without a next event, the current event's data at the moment it takes effect, and otherwise the interpolated value between current and next |
| TrackerTypes.InterpolationStartsAtHold | smartaq/utils/time/schedule_tracker_types.h:54-56 | at the moment an event takes effect, interpolating agrees with holding |
| TrackerTypes.TrackerValue | smartaq/utils/time/schedule_tracker.h:115-117 | the selected tracker decides: holding always yields, interpolation yields exactly when there is a next event, and non-interpolating trackers yield the current data |
| ScheduleTrackers.ChannelEntry | smartaq/utils/time/schedule_tracker.h:172-184 | a channel has an event exactly when it lies within the status and its entry is set, and then it is that entry |
| ScheduleTrackers.GetEvent | smartaq/utils/time/schedule_tracker.h:164-194 | corrected (eight-pass day search): without a schedule, or for a channel beyond the schedule's channels, there is no event |
| ScheduleTrackers.ValueFromEvents | smartaq/utils/time/schedule_tracker.h:97-117 | no current event gives no value; holding yields exactly when there is one; non-interpolating values are the current event's data |
| ScheduleTrackers.ChannelValue | smartaq/utils/time/schedule_tracker.h:81-118 | corrected (eight-pass day search): a channel beyond the tracker, a missing schedule or a missing current event gives no value; holding yields exactly when the channel is in range and has a current event, whose data it yields |
| ScheduleTrackers.SingleShotReadAfterUpdate | smartaq/utils/time/schedule_tracker.h:150-159 | after a channel's time is set to now, the single-shot value of that channel at the same date is empty |
| ScheduleTrackers.HoldFindsAnyScheduledEvent | smartaq/utils/time/schedule_tracker.h:164-190 | corrected (eight-pass day search): holding, a channel of both tracker and schedule has a value at every valid date exactly when some weekday schedules an event for it; the four-pass code as written can miss the event |
| ScheduleTrackers.ScheduleTracker.constructor | smartaq/utils/time/schedule_tracker.h:26-28 | the tracker keeps the schedule and the chosen transition mode |
| ScheduleTrackers.ScheduleTracker.WithHold | smartaq/utils/time/schedule_tracker.h:29-30 | the constructor without a mode holds events |
| ScheduleTrackers.ScheduleTracker.GetEventOf | smartaq/utils/time/schedule_tracker.h:162-194 | corrected (eight-pass day search): the method returns the event the `GetEvent` specification gives for its schedule |
| ScheduleTrackers.ScheduleTracker.GetCurrentChannelValue | smartaq/utils/time/schedule_tracker.h:81-118 | corrected (eight-pass day search): the method returns `ChannelValue` of the tracker's state |
| ScheduleTrackers.ScheduleTracker.GetCurrentChannelValues | smartaq/utils/time/schedule_tracker.h:72-79 | corrected (eight-pass day search): one value per tracker channel, each `ChannelValue` of that channel |
| ScheduleTrackers.ScheduleTracker.SetTrackingType | smartaq/utils/time/schedule_tracker.h:138-141 | the mode changes and the schedule does not |
| ScheduleTrackers.ScheduleTracker.SetSchedule | smartaq/utils/time/schedule_tracker.h:45-47 | the schedule changes and the mode does not |
| ScheduleTrackers.ScheduleTracker.UpdateChannelTime | smartaq/utils/time/schedule_tracker.h:150-159 | succeeds exactly for a channel of the tracker, whose time alone becomes the seconds since the week began; otherwise nothing changes |
| ScheduleTrackers.ScheduleTracker.UpdateAllChannelTimes | smartaq/utils/time/schedule_tracker.h:143-148 | every channel time becomes now, so a single-shot tracker yields nothing for any channel at that date |
| ScheduleTrackers.ScheduleTracker.ChannelTimes | smartaq/utils/time/schedule_tracker.h:49-51 | one time per channel |
| ScheduleTrackers.ScheduleTracker.SetChannelTimes | smartaq/utils/time/schedule_tracker.h:53-56 | reading the times back gives exactly the times set |
| EventAccessArrays.StoredName | main/utils/event_access_array.h:219-221 | the stored name fits the name buffer with its terminator, is a prefix of the given name, and is the whole name when it fits and holds no NUL |
| EventAccessArrays.FindIndex | main/utils/event_access_array.h:147-176 | an index in range wins and one out of range finds nothing; otherwise the first slot with the name, otherwise (when asked) the first free slot |
| EventAccessArrays.SetValueSpec | main/utils/event_access_array.h:204-230 | collection full exactly when no slot is found, leaving everything unchanged; on success the found slot becomes initialized and renamed when a name was given, and the index is reported; slots other than the found one keep their value and runtime data |
| EventAccessArrays.RemoveValueSpec | main/utils/event_access_array.h:233-253 | ok exactly when a slot is found, which is then reset; otherwise index invalid with nothing changed |
| EventAccessArrays.GetValueSpec | main/utils/event_access_array.h:255-271 | ok with the found slot's stored value exactly when a slot is found, index invalid otherwise |
| EventAccessArrays.SetThenGetByIndex | main/utils/event_access_array.h:209-223 | a value set at an index whose update succeeds is read back at that index |
| EventAccessArrays.SetThenGetByName | main/utils/event_access_array.h:209-223 | a value set under a name that fits is read back by that name |
| EventAccessArrays.RemoveForgetsUniqueName | main/utils/event_access_array.h:237-250 | removing the only slot with a name makes that name unknown to reads |
| EventAccessArrays.RemoveThenGetByIndex | main/utils/event_access_array.h:244-250 | a removed slot reads back as the default value and is free for the next insertion at or before it |
| EventAccessArrays.Listed | main/utils/event_access_array.h:302-306 | each listed entry is an initialized slot of the range with its name |
| EventAccessArrays.ListedAscending | main/utils/event_access_array.h:302-306 | the overview lists slots in ascending index order |
| EventAccessArrays.ListedComplete | main/utils/event_access_array.h:302-306 | the overview misses no initialized slot of the range |
| EventAccessArrays.EventAccessArray.constructor | main/utils/event_access_array.h:87-144 | a new array holds default values, empty names, no runtime data and no initialized slot |
| EventAccessArrays.EventAccessArray.FindIndexOf | main/utils/event_access_array.h:147-176 | the two searches return exactly `FindIndex` |
| EventAccessArrays.EventAccessArray.Initialize | main/utils/event_access_array.h:178-196 | the stored representation is taken over, and only initialized slots get runtime data from the creation hook |
| EventAccessArrays.EventAccessArray.SetValue | main/utils/event_access_array.h:204-230 | the new state, result and index are `SetValueSpec` of the old state |
| EventAccessArrays.EventAccessArray.SetValueUnchecked | main/utils/event_access_array.h:198-202 | setting with the hook that accepts everything and changes nothing |
| EventAccessArrays.EventAccessArray.RemoveValue | main/utils/event_access_array.h:233-253 | the new state, result and index are `RemoveValueSpec` of the old state |
| EventAccessArrays.EventAccessArray.GetValue | main/utils/event_access_array.h:255-271 | result and value are `GetValueSpec` of the state |
| EventAccessArrays.EventAccessArray.HasValidRuntimeData | main/utils/event_access_array.h:313-320 | true exactly for an index of the array whose slot is initialized and has runtime data; a negative index is refused |
| EventAccessArrays.EventAccessArray.GetValueOverviewAsWritten | main/utils/event_access_array.h:284-311 | the result is always ok, even for a start beyond the end, and the entries are the initialized slots from the start |
| EventAccessArrays.EventAccessArray.GetValueOverview | main/utils/event_access_array.h:284-311 | index invalid exactly for a start beyond the end, ok otherwise, and the entries are the initialized slots from the start in ascending order |
| EventAccessArrays.EventAccessArray.State | main/utils/event_access_array.h:322-327 | the trivial representation (with the runtime data) has one entry per slot |
| BufferPools.GetFreeSpec | smartaq/utils/large_buffer_pool.h:182-203 | nothing is handed out, and nothing changes, exactly when every buffer is borrowed; otherwise an available buffer, and only it, becomes borrowed |
| BufferPools.ReturnSpec | smartaq/utils/large_buffer_pool.h:205-225 | succeeds exactly for a non-null address of some buffer, which then becomes available; otherwise nothing changes |
| BufferPools.BorrowThenReturnRestores | smartaq/utils/large_buffer_pool.h:182-225 | borrowing a buffer and returning its address restores every status |
| BufferPools.BorrowsAreExclusive | smartaq/utils/large_buffer_pool.h:189-194 | the next borrowing never hands out the buffer just borrowed |
| BufferPools.AllocatedBuffer.constructor | smartaq/utils/large_buffer_pool.h:77-83 | a buffer starts available at its allocated address |
| BufferPools.AllocatedBuffer.GiveBack | smartaq/utils/large_buffer_pool.h:95-102 | succeeds exactly for the buffer's own address, which makes it available; otherwise the status is unchanged |
| BufferPools.AllocatedBuffer.BorrowBuffer | smartaq/utils/large_buffer_pool.h:104-112 | yields a borrower of the buffer's address and size exactly when it was available, and the buffer is borrowed afterwards |
| BufferPools.LargeBufferPool.constructor | smartaq/utils/large_buffer_pool.h:176 | a pool of distinct non-null buffers, all available |
| BufferPools.LargeBufferPool.Addresses | smartaq/utils/large_buffer_pool.h:176 | one address per buffer |
| BufferPools.LargeBufferPool.Statuses | smartaq/utils/large_buffer_pool.h:176 | one status per buffer |
| BufferPools.LargeBufferPool.DistinctBuffers | smartaq/utils/large_buffer_pool.h:176 | buffers at different positions are different objects |
| BufferPools.LargeBufferPool.GetFreeBuffer | smartaq/utils/large_buffer_pool.h:182-203 | the new statuses and the borrower are `GetFreeSpec` of the old statuses |
| BufferPools.LargeBufferPool.ReturnBuffer | smartaq/utils/large_buffer_pool.h:205-225 | the result and the new statuses are `ReturnSpec` of the old statuses |
| BufferPools.LargeBufferPool.ReleaseBorrower | smartaq/utils/large_buffer_pool.h:42 | destroying a borrower returns its buffer, and a moved-from borrower changes nothing |
| TaskPools.NextId | smartaq/utils/task_pool.h:232-236 | the next id stays within the 64-bit underlying type: one more, except that the invalid id wraps to 0 |
| TaskPools.SelectAmong | smartaq/utils/task_pool.h:136-157 | the selection is a runnable task (an id that is not invalid) |
| TaskPools.SelectIsEarliestDue | smartaq/utils/task_pool.h:136-162 | nothing is selected exactly when no task is runnable; the selected task has the minimal next execution time, and every runnable task before it is due strictly later |
| TaskPools.WakeUpRunsATask | smartaq/utils/task_pool.h:220-228 | when the worker's wake-up condition holds, the next round selects a task that is due |
| TaskPools.WithoutId | smartaq/utils/task_pool.h:288-291 | exactly the slots holding a task with the id are emptied, the others keep their task |
| TaskPools.Appended | smartaq/utils/task_pool.h:245-267 | the first empty slot receives the task; a full pool is unchanged |
| TaskPools.RemovedIdIsGone | smartaq/utils/task_pool.h:288-291 | after a removal no slot holds the id |
| TaskPools.PostThenRemoveRestores | smartaq/utils/task_pool.h:240-299 | posting a task under a fresh id and removing that id restores the slots |
| TaskPools.TaskResourceTracker.constructor | smartaq/utils/task_pool.h:31 | the tracker keeps the resource and the id |
| TaskPools.TaskResourceTracker.Invalidate | smartaq/utils/task_pool.h:58-65 | an inactive tracker changes nothing; an active one removes its task's slots and becomes inactive exactly when the task was still in the pool |
| TaskPools.TaskPool.constructor | smartaq/utils/task_pool.h:110-113 | an empty pool whose next id is 0 |
| TaskPools.TaskPool.PostTask | smartaq/utils/task_pool.h:239-260 | a full pool yields a tracker with the invalid id and changes nothing; otherwise the task is appended under the current id, which the tracker carries, and the id advances |
| TaskPools.TaskPool.RemoveTask | smartaq/utils/task_pool.h:279-300 | the invalid id is refused without change; otherwise every slot with the id is emptied, the result says whether one existed, and then the caller's id becomes invalid |
| TaskPools.TaskPool.SelectTask | smartaq/utils/task_pool.h:136-157 | the loop returns `SelectAmong` of the slots |
| TaskPools.TaskPool.HandleTaskExecutions | smartaq/utils/task_pool.h:120-202 | no runnable task or an earliest task not yet due changes nothing and gives the next look-up time; a due task is removed, a single-shot one for good, a periodic one reposted under its id with its last execution time set to when it finished |
| TaskPools.TaskPool.RepostTask | smartaq/utils/task_pool.h:262-277 | the task is appended, or dropped by a full pool |
| FilesystemUtils.LastSeparatorUpTo | smartaq/utils/filesystem_utils.cpp:65-74 | the backward scan finds the last separator at position 1 or later that no backslash escapes, or reports that there is none |
| FilesystemUtils.StrNCpy | smartaq/utils/filesystem_utils.cpp:63-86 | `strncpy` rewrites only the first `n` characters of the buffer |
| FilesystemUtils.StrNCpyTerminates | smartaq/utils/filesystem_utils.cpp:63-86 | a source shorter than `n` is copied with its terminator, so the buffer reads back as the source |
| FilesystemUtils.StrNCpyInto | smartaq/utils/filesystem_utils.cpp:63-86 | the copy loop leaves the buffer as `StrNCpy` says |
| FilesystemUtils.ParentAsWritten | smartaq/utils/filesystem_utils.cpp:53-88 | as written, the function touches no character beyond `dst_len` |
| FilesystemUtils.Parent | smartaq/utils/filesystem_utils.cpp:53-88 | corrected, the function touches no character beyond `dst_len` |
| FilesystemUtils.ParentIsWritten | smartaq/utils/filesystem_utils.cpp:53-88 | the corrected function succeeds exactly when the buffer holds two characters and the parent with its terminator fits, and the buffer then holds the parent directory ("." when there is no separator) |
| FilesystemUtils.ParentPrecedesLastSeparator | smartaq/utils/filesystem_utils.cpp:66-74 | the parent followed by the separator starts the path, and no unescaped separator follows |
| FilesystemUtils.AsWrittenDiffersOnlyAtIndexOne | smartaq/utils/filesystem_utils.cpp:70-76 | the code as written agrees with the corrected code unless the last separator is at index 1 |
| FilesystemUtils.AsWrittenLosesOneCharacterParent | smartaq/utils/filesystem_utils.cpp:70-78 | for "a/b" the parent is "a", but the code as written reports "." |
| FilesystemUtils.CopyParentDirectoryAsWritten | smartaq/utils/filesystem_utils.cpp:53-88 | the result and the buffer are `ParentAsWritten` of the old buffer |
| FilesystemUtils.CopyParentDirectory | smartaq/utils/filesystem_utils.cpp:53-88 | the result and the buffer are `Parent` of the old buffer |
| ScheduleDrivers.NumberOfBits | smartaq/drivers/schedule_driver.cpp:31-33 | the number of binary digits: 0 for 0, otherwise the `r` with 2^(r-1) <= x < 2^r |
| ScheduleDrivers.DeviceIndexFitsField | smartaq/drivers/schedule_driver.cpp:169 | a device index below the device count fits in a field of `numberOfBits(max_num_devices)` bits |
| ScheduleDrivers.IdPart | smartaq/drivers/schedule_driver.cpp:173 | a shifted device index has no bits below the shift and the index's bits from the shift on, truncated to 16 bits |
| ScheduleDrivers.CreateIdBelow | smartaq/drivers/schedule_driver.cpp:168-178 | the first `n` channels set no bit at `bits * n` or above when every index fits its field |
| ScheduleDrivers.CreateIdPlacesIndices | smartaq/drivers/schedule_driver.cpp:168-178 | bit `k` of field `i` of the id is bit `k` of channel `i`'s device index, and unset for a channel without one |
| ScheduleDrivers.CreateId | smartaq/drivers/schedule_driver.cpp:168-178 | the loop packs the id `CreateIdUpTo` describes |
| ScheduleDrivers.ChannelOfUpTo | smartaq/drivers/schedule_driver.cpp:289-298 | the first channel with the name, and none exactly when no channel has it |
| ScheduleDrivers.ChannelIndex | smartaq/drivers/schedule_driver.cpp:282-299 | none without a configuration, otherwise the first channel with the name |
| ScheduleDrivers.MissingData | smartaq/drivers/schedule_driver.cpp:144-151 | missing exactly when some channel has a name but no device index or the reverse |
| ScheduleDrivers.CreateDriverConfig | smartaq/drivers/schedule_driver.cpp:126-180 | refused exactly when data is missing; otherwise the configuration as parsed, with the id packed from its device indices |
| ScheduleDrivers.PointData | smartaq/drivers/schedule_driver.cpp:64-88 | one optional value per channel |
| ScheduleDrivers.Points | smartaq/drivers/schedule_driver.cpp:51-104 | at most one time point per match, each with one entry per channel |
| ScheduleDrivers.PointTimesValid | smartaq/drivers/schedule_driver.cpp:55-62 | the time of every parsed point is a time of day |
| ScheduleDrivers.PointDataUnsetChannel | smartaq/drivers/schedule_driver.cpp:64-88 | a channel that no variable names holds no value |
| ScheduleDrivers.PointDataLastWins | smartaq/drivers/schedule_driver.cpp:79-80 | a channel holds the value of the last variable naming it |
| ScheduleDrivers.ParsePointData | smartaq/drivers/schedule_driver.cpp:65-88 | succeeds exactly when every variable has a number and a known channel, and then yields `PointData` |
| ScheduleDrivers.UnresolvedBlocksParse | smartaq/drivers/schedule_driver.cpp:74-85 | a variable without a number or with an unknown channel makes the input unstorable |
| ScheduleDrivers.RejectedInsertBlocksParse | smartaq/drivers/schedule_driver.cpp:90-97 | an insert the day schedule rejects (day full or time taken) makes the input unstorable |
| ScheduleDrivers.AddMatch | smartaq/drivers/schedule_driver.cpp:51-104 | one pass keeps the slots equal to the points so far plus unused slots, and fails only for an unstorable input |
| ScheduleDrivers.AddMatches | smartaq/drivers/schedule_driver.cpp:51-104 | the loop stops early only for an unstorable input; when it runs to the end the slots hold the points of all matches, and the data flag is set by the last match when it is reset per match (as written) or by any match otherwise |
| ScheduleDrivers.ParseTimePoints | smartaq/drivers/schedule_driver.cpp:47-104 | the loop runs to the end exactly for a storable input, whose points then fill the day schedule's slots, the rest unused; the flag, reset per match as written, tells whether the last match carried data, and kept once set, whether any did |
| ScheduleDrivers.ParseDayScheduleAsWritten | smartaq/drivers/schedule_driver.cpp:47-113 | as written, a schedule is returned exactly for a storable input whose last match carries a variable, and holds the parsed points |
| ScheduleDrivers.ParseDaySchedule | smartaq/drivers/schedule_driver.cpp:47-113 | corrected, a schedule is returned exactly for a storable input with at least one time point, and holds the parsed points |
| ScheduleDrivers.AsWrittenAcceptsLess | smartaq/drivers/schedule_driver.cpp:53-108 | whatever the code as written accepts the corrected parse accepts, and the two agree when the last match carries a variable |
| ScheduleDrivers.AsWrittenDropsTrailingEmptyMatch | smartaq/drivers/schedule_driver.cpp:53-108 | "08-00:a=1;20-00:" is refused as written and accepted when corrected, with the single point at 8:00 |
| ScheduleDrivers.Writes | smartaq/drivers/schedule_driver.cpp:339-361 | each write goes to a channel with a value and a device index, carries that channel's device, unit and value, and the writes are in channel order |
| ScheduleDrivers.EveryWrittenChannelIsSent | smartaq/drivers/schedule_driver.cpp:339-361 | every channel with a value and a device index is written |
| ScheduleDrivers.CurrentValues | smartaq/drivers/schedule_driver.cpp:337 | corrected (eight-pass day search): one value per tracker channel, each the tracker's `ChannelValue` |
| ScheduleDrivers.ScheduleDriver.constructor | smartaq/drivers/schedule_driver.cpp:301 | the driver keeps its configuration and tracker |
| ScheduleDrivers.ScheduleDriver.UpdateValues | smartaq/drivers/schedule_driver.cpp:323-369 | corrected (eight-pass day search): the writes are `Writes` of the tracker's current values, the driver reports an update exactly when it wrote something, and exactly the written channels get the date as their channel time |
| ScheduleDrivers.ScheduleDriver.SendValues | smartaq/drivers/schedule_driver.cpp:339-361 | the loop over the channel values writes, in channel order, each channel that has a value and a device index, sets the update flag exactly when it wrote something, and stamps the date on exactly those channels, leaving the other channel times alone |
| SwitchDrivers.ParseSwitchType | smartaq/drivers/switch_driver.h:41-52 | the level holder exactly for the text "LevelHolder", invalid for anything else |
| SwitchDrivers.ParseDefaultValue | smartaq/drivers/switch_driver.h:54-70 | low exactly for "Low" or "low", high exactly for "High" or "high", neutral for every other text |
| SwitchDrivers.NeutralWithinAllowedDifference | smartaq/drivers/switch_driver.h:249-254 | the neutral action is chosen exactly when the difference lies strictly inside the allowed band |
| SwitchDrivers.BandIsMonotone | smartaq/drivers/switch_driver.h:249-263 | a larger difference never selects a lower action (low, neutral, high) |
| SwitchDrivers.BandIsSymmetric | smartaq/drivers/switch_driver.h:249-263 | negating a non-zero difference swaps low and high and keeps neutral |
| SwitchDrivers.CalculateRelevantBound | smartaq/drivers/switch_driver.h:219-265 | a calculation error exactly when there is no difference, a read error exactly when the allowed or actual difference is no float, and otherwise the argument of the band the difference falls in |
| SwitchDrivers.React | smartaq/drivers/switch_driver.h:267-320 | one round of `watchValuesAndReact`: a round that writes nothing changes nothing, a new previous value is always the action just written, and the switch time moves only to `now` after a successful write |
| SwitchDrivers.FailureEnablesSafety | smartaq/drivers/switch_driver.h:277-292 | a failed reading or comparison writes the default action's argument and keeps the previous value |
| SwitchDrivers.NoWriteWithinStayWindow | smartaq/drivers/switch_driver.h:294-298 | inside the stay-in-state window a good reading writes nothing and changes nothing |
| SwitchDrivers.NoRepeatWhenOnlyOnChange | smartaq/drivers/switch_driver.h:300-307 | a switch that only triggers on change writes nothing when the action equals the previous one |
| SwitchDrivers.WritesTheBoundOutsideWindow | smartaq/drivers/switch_driver.h:300-319 | outside the window, a computed action that is new (or any action, without only-on-change) is written and becomes the previous value, even when the write fails |
| SwitchDrivers.RepeatedRoundWritesNothing | smartaq/drivers/switch_driver.h:294-319 | for a switch that only triggers on change, repeating a round with the same reading at the same time writes nothing the second time |
| SwitchDrivers.SwitchDriver.constructor | smartaq/drivers/switch_driver.h:322-323 | the driver keeps its configuration, has switched at the epoch and holds the default previous value |
| SwitchDrivers.SwitchDriver.WriteValueToDevice | smartaq/drivers/switch_driver.h:337-349 | the switch time becomes now exactly when the device accepted the write; nothing else changes |
| SwitchDrivers.SwitchDriver.EnableSafety | smartaq/drivers/switch_driver.h:325-335 | writes the argument of the configured default action: low, neutral or high |
| SwitchDrivers.SwitchDriver.WatchValuesAndReact | smartaq/drivers/switch_driver.h:267-320 | what is written and the new state are `React` of the old state |
| SwitchDrivers.SwitchDriver.WriteValue | smartaq/drivers/switch_driver.h:365-379 | a value in the switch's unit becomes the target value; any other unit fails with the configuration unchanged |
| SwitchDrivers.SwitchDriver.ReadValue | smartaq/drivers/switch_driver.h:354-363 | only "targetValue" is readable, and it reads the configured target value; anything else is not supported |
| Pcf8575Drivers.AddRegisters | smartaq/drivers/pcf8575_driver.cpp:235-259 | adding succeeds exactly for an unregistered address while a slot is free, changes only an empty slot, and keeps every address in at most one slot; a refusal changes nothing |
| Pcf8575Drivers.RemoveUnregisters | smartaq/drivers/pcf8575_driver.cpp:261-278 | removing succeeds exactly for a registered address, which is then gone, and every other slot is unchanged |
| Pcf8575Drivers.AddThenRemoveRestores | smartaq/drivers/pcf8575_driver.cpp:235-278 | registering an address and removing it again restores the registry |
| Pcf8575Drivers.AddTwiceRefused | smartaq/drivers/pcf8575_driver.cpp:238-246 | registering the same address a second time is refused and changes nothing |
| Pcf8575Drivers.AddressRegistry.constructor | smartaq/drivers/pcf8575_driver.h:89 | the shared registry starts with every slot empty |
| Pcf8575Drivers.AddressRegistry.AddAddress | smartaq/drivers/pcf8575_driver.cpp:235-259 | the result and the new slots are `Added` of the old slots |
| Pcf8575Drivers.AddressRegistry.RemoveAddress | smartaq/drivers/pcf8575_driver.cpp:261-278 | the result and the new slots are `Removed` of the old slots |
| Pcf8575Drivers.LeadingDigits | smartaq/drivers/pcf8575_driver.cpp:154-187 | `from_chars` consumes the longest prefix of decimal digits |
| Pcf8575Drivers.ParseUint8 | smartaq/drivers/pcf8575_driver.cpp:154-187 | conversion to `uint8_t` fails exactly without a leading digit or when the digits exceed 255, and otherwise yields their value |
| Pcf8575Drivers.ParsePin | smartaq/drivers/pcf8575_driver.cpp:154-191 | a pin is named exactly by text converting to a number below 16 |
| Pcf8575Drivers.PinNamesParse | smartaq/drivers/pcf8575_driver.cpp:154-158 | each of the sixteen pins is selected by its decimal name |
| Pcf8575Drivers.OtherNamesAreRefused | smartaq/drivers/pcf8575_driver.cpp:154-158 | the empty text, a letter first, 16 and 256 name no pin |
| Pcf8575Drivers.BitAnd | smartaq/drivers/pcf8575_driver.cpp:170-193 | `&` yields no more than either operand |
| Pcf8575Drivers.BitAndHasCommonBits | smartaq/drivers/pcf8575_driver.cpp:170 | a bit of `a & b` is set exactly when it is set in both operands |
| Pcf8575Drivers.WriteMaskKeepsOnlyThePin | smartaq/drivers/pcf8575_driver.cpp:170 | masking with `level << pin` keeps only the pin's bit when the level is 1 and clears every bit when it is 0 |
| Pcf8575Drivers.PinLevel | smartaq/drivers/pcf8575_driver.cpp:193 | the corrected level is 1 exactly when the pin's bit of the reading is set, 0 otherwise |
| Pcf8575Drivers.OnlyTheHighPinReadsHigh | smartaq/drivers/pcf8575_driver.cpp:193 | with only pin `p` high, the corrected reading is high on `p` and low on every other pin |
| Pcf8575Drivers.AsWrittenMisreadsPins | smartaq/drivers/pcf8575_driver.cpp:193 | as written, pin 0 always reads low, pin 3 reads low with only pin 3 high, and pin 1 reads high with only pin 0 high |
| Pcf8575Drivers.Pcf8575Driver.constructor | smartaq/drivers/pcf8575_driver.h:85-86 | the written value starts with every bit set |
| Pcf8575Drivers.Pcf8575Driver.WriteValue | smartaq/drivers/pcf8575_driver.cpp:149-178 | a bad pin or a value with neither enable nor percentage fails with nothing changed; otherwise the written value is masked with the level (at most 1) shifted to the pin, which clears every other pin's bit, and the result is the port write's |
| Pcf8575Drivers.Pcf8575Driver.ReadValueAsWritten | smartaq/drivers/pcf8575_driver.cpp:180-196 | a bad pin fails; otherwise the level reported is `readValue & pin` |
| Pcf8575Drivers.Pcf8575Driver.ReadValue | smartaq/drivers/pcf8575_driver.cpp:180-196 | a bad pin fails; otherwise the level reported is the pin's bit of the reading |
| StatsDrivers.Due | smartaq/drivers/stats_driver.h:218-220 | a statistic is due when at least its interval lies between now and its last measurement, in either direction |
| StatsDrivers.AddKeepsDevicesDistinct | smartaq/drivers/stats_driver.h:89-122 | adding succeeds exactly for non-null settings, neither registered nor measuring a registered device, while a slot is free; a refusal changes nothing; the table keeps one settings object per device |
| StatsDrivers.RemoveUnregisters | smartaq/drivers/stats_driver.h:124-141 | removing succeeds exactly for registered non-null settings, which are then gone; a refusal changes nothing |
| StatsDrivers.AddThenRemoveRestores | smartaq/drivers/stats_driver.h:89-141 | registering settings and removing them again restores the table |
| StatsDrivers.AfterRound | smartaq/drivers/stats_driver.h:213-253 | one entry per slot |
| StatsDrivers.RoundUpdatesOnlyMeasured | smartaq/drivers/stats_driver.h:213-234 | a round keeps empty slots empty, changes only the measurement time, and changes it (to now) only for a due statistic whose device answered |
| StatsDrivers.RoundIsIdempotent | smartaq/drivers/stats_driver.h:218-234 | with positive intervals, a second round in the same minute changes nothing more |
| StatsDrivers.StatsRegistry.Views | smartaq/drivers/stats_driver.h:80-81 | one view per slot |
| StatsDrivers.StatsRegistry.constructor | smartaq/drivers/stats_driver.h:80-81 | the table starts with every slot empty |
| StatsDrivers.StatsRegistry.AddStat | smartaq/drivers/stats_driver.h:89-122 | the result and the new slots are `Added` of the old slots |
| StatsDrivers.StatsRegistry.RemoveStat | smartaq/drivers/stats_driver.h:124-141 | the result and the new slots are `Removed` of the old slots |
| StatsDrivers.StatsRegistry.DistinctObjects | smartaq/drivers/stats_driver.h:99-105 | different slots of a valid table hold different settings objects |
| StatsDrivers.StatsRegistry.MeasureDue | smartaq/drivers/stats_driver.h:213-253 | what the task sees after the round is `AfterRound` of what it saw before |
| SoftTimers.TimerSettings.constructor | main/drivers/soft_timer_types.h:16-22 | the settings hold the given time of day, device index, enabled flag and weekday mask |
| SoftTimers.AddRegisters | main/drivers/soft_timers.h:68-106 | adding succeeds exactly for a non-null timer that is not registered while a slot is free; a refusal changes nothing; on success the timer sits in a slot whose executed flag is cleared, and no timer is registered twice |
| SoftTimers.RemoveUnregisters | main/drivers/soft_timers.h:109-131 | removing succeeds exactly for a registered non-null timer, which is then gone; the executed flags are untouched and a refusal changes nothing |
| SoftTimers.AddThenRemoveRestores | main/drivers/soft_timers.h:68-131 | adding a timer and removing it again succeeds and restores the registered timers |
| SoftTimers.ResetFlags | main/drivers/soft_timers.h:164-169 | clearing the flags on a new day keeps one flag per slot |
| SoftTimers.Fires | main/drivers/soft_timers.h:183-206 | a timer fires when its slot is set, it is enabled, it has not fired today, its weekday bit is set and its time of day has come |
| SoftTimers.Attempts | main/drivers/soft_timers.h:179-211 | a round decides once per slot whether to start its action |
| SoftTimers.FlagsAfterRound | main/drivers/soft_timers.h:179-227 | a round keeps one flag per slot |
| SoftTimers.FlagsOnlyOnSuccess | main/drivers/soft_timers.h:188-221 | after a round a slot's flag is set exactly when it was set before or its timer fired (enabled, not executed, weekday bit set, time reached) and the action succeeded |
| SoftTimers.FiresOncePerDay | main/drivers/soft_timers.h:164-221 | a timer whose action succeeded does not fire again in a later round on the same day |
| SoftTimers.NewDayRearms | main/drivers/soft_timers.h:164-210 | on a new day an enabled timer whose weekday bit is set and whose time has come fires, whatever its flag was |
| SoftTimers.SoftTimerDriver.constructor | main/drivers/soft_timers.h:57-64 | N empty slots, all flags cleared, last reset day 0 |
| SoftTimers.SoftTimerDriver.AddTimer | main/drivers/soft_timers.h:68-106 | the result and new table are those of adding the timer to the old table (null or present refused, first empty slot with flag cleared, full table refused); timers stay distinct |
| SoftTimers.SoftTimerDriver.RemoveTimer | main/drivers/soft_timers.h:109-131 | the result and new table are those of removing the timer from the old table (first matching slot emptied, absent or null refused); timers stay distinct |
| SoftTimers.SoftTimerDriver.HandleTimers | main/drivers/soft_timers.h:147-233 | after a round the last reset day is today; the started actions are the firing slots after the new-day reset, and the flags are those after the round with success marking |
| ScaleContexts.WithApiAddress | co2_bottle_scale/src/scalecontext.js:12-17 | setting the address replaces the address and keeps the contained CO2 |
| ScaleContexts.WithContainedCo2 | co2_bottle_scale/src/scalecontext.js:19-24 | setting the contained CO2 replaces it and keeps the address |
| ScaleContexts.SettersAreIdempotent | co2_bottle_scale/src/scalecontext.js:12-24 | applying either setter twice with the same value is the same as applying it once |
| ScaleContexts.SettersCommute | co2_bottle_scale/src/scalecontext.js:12-24 | the two setters touch different fields, so applying them in either order gives the same state |
| ScaleContexts.ScaleContextProvider.constructor | co2_bottle_scale/src/scalecontext.js:7-10 | the provider starts with an empty address and contained CO2 0 |
| ScaleContexts.ScaleContextProvider.SetApiAddress | co2_bottle_scale/src/scalecontext.js:12-17 | the new state is the old one with only the address replaced |
| ScaleContexts.ScaleContextProvider.SetContainedCo2 | co2_bottle_scale/src/scalecontext.js:19-24 | the new state is the old one with only the contained CO2 replaced |
| ScaleHome.Used | co2_bottle_scale/src/home.js:31 | the used CO2 is the load's magnitude: non-negative, equal to the load or its negation, and 0 before the first response |
| ScaleHome.Available | co2_bottle_scale/src/home.js:34 | the available CO2 plus the used CO2 is the contained CO2; it never exceeds the contained CO2 and is not clamped at 0 |
| ScaleHome.AfterPoll | co2_bottle_scale/src/home.js:19 | a poll response sets both the load and the contained CO2 from its fields |
| ScaleHome.SignDoesNotMatter | co2_bottle_scale/src/home.js:31-34 | loads of equal magnitude and opposite sign show the same used and available CO2 |
| ScaleHome.AvailableGoesNegative | co2_bottle_scale/src/home.js:31-34 | used and available add up to the contained CO2, and available is negative exactly when more than the contained CO2 was used |
| ScaleHome.PollForgetsEarlierState | co2_bottle_scale/src/home.js:19 | the state after a poll depends on the response alone, and the used CO2 is then the magnitude of the reported load |
| ScaleHome.HomeView.constructor | co2_bottle_scale/src/home.js:8-11 | the view starts with no load, contained CO2 0 and no poll interval |
| ScaleHome.HomeView.Mount | co2_bottle_scale/src/home.js:13-21 | mounting starts the poll interval and leaves the figures as they were |
| ScaleHome.HomeView.Poll | co2_bottle_scale/src/home.js:16-20 | while the interval runs a response replaces the state as a poll does; once it is cleared nothing changes |
| ScaleHome.HomeView.Unmount | co2_bottle_scale/src/home.js:23-25 | unmounting clears the poll interval and leaves the figures as they were |
| ScaleSettings.TrimStart | co2_bottle_scale/src/settings.js:30 | the leading white space `Number()` skips is removed: the result is a suffix that starts with a visible character, and everything dropped is white space |
| ScaleSettings.TrimEnd | co2_bottle_scale/src/settings.js:30 | the trailing white space is removed: the result is a prefix ending in a visible character, and everything dropped is white space |
| ScaleSettings.Trim | co2_bottle_scale/src/settings.js:30 | the result starts and ends with a visible character and keeps every visible character of the text |
| ScaleSettings.IndexOfEither | co2_bottle_scale/src/settings.js:30 | the first position holding either character, and none exactly when neither occurs |
| ScaleSettings.IsNumericText | co2_bottle_scale/src/settings.js:30 | `isNaN` accepts a text exactly when its trimmed form is a numeric literal (described by `DigitsAreNumeric`, `LetterFirstIsRefused` and `PaddingIsIgnored`) |
| ScaleSettings.TrimStartAppend | co2_bottle_scale/src/settings.js:30 | trimming the front of a text with one more character at the end appends that character to the trimmed text, unless the text was blank |
| ScaleSettings.LeadingSpaceIsTrimmed | co2_bottle_scale/src/settings.js:30 | a leading space does not change the text left after trimming its front |
| ScaleSettings.TrailingSpaceIsTrimmed | co2_bottle_scale/src/settings.js:30 | a trailing space does not change the text left after trimming its end |
| ScaleSettings.PaddingIsIgnored | co2_bottle_scale/src/settings.js:30-32 | spaces around an entry change neither its trimmed text nor whether `isNaN` accepts it |
| ScaleSettings.DigitsAreNumeric | co2_bottle_scale/src/settings.js:30-32 | a non-empty run of decimal digits passes the `isNaN` guard |
| ScaleSettings.LetterFirstIsRefused | co2_bottle_scale/src/settings.js:30-32 | text whose first visible character is not a digit, sign, point or the start of `Infinity` is refused by the `isNaN` guard |
| ScaleSettings.MantissaStartsWithDigitOrPoint | co2_bottle_scale/src/settings.js:30 | a mantissa must start with a digit or a decimal point |
| ScaleSettings.Filled | co2_bottle_scale/src/settings.js:68-72 | the `!= undefined && != ""` guard under loose inequality, which also treats the number 0 as empty |
| ScaleSettings.Saved | co2_bottle_scale/src/settings.js:65-75 | each context field keeps its value or takes the form's, and changes only when the form's value is neither undefined nor empty |
| ScaleSettings.SaveIsIdempotent | co2_bottle_scale/src/settings.js:65-75 | saving twice gives the same context as saving once |
| ScaleSettings.SaveNeverClears | co2_bottle_scale/src/settings.js:68-74 | a context whose fields are filled or initial keeps that property across a save, and a filled field stays filled |
| ScaleSettings.AfterAddressEdit | co2_bottle_scale/src/settings.js:24-26 | an address edit sets the form's address to the typed text and keeps its CO2 entry |
| ScaleSettings.Co2Request | co2_bottle_scale/src/settings.js:28-34 | a CO2 edit posts a request exactly when `isNaN` accepts the text, and then to the context's address, the contained-CO2 endpoint, with the text as body |
| ScaleSettings.TareRequest | co2_bottle_scale/src/settings.js:13-22 | tare posts to the context's address at the tare endpoint, with no body |
| ScaleSettings.BlankEntryPostedButNotSaved | co2_bottle_scale/src/settings.js:30-74 | blank CO2 text passes the guard and is posted, yet a save leaves the context's CO2 as it was |
| ScaleSettings.SavedCo2IsNumeric | co2_bottle_scale/src/settings.js:30-74 | when the form's CO2 entry is unset or numeric, a save leaves the context's CO2 alone or puts non-empty numeric text into it; the corrected answer handler keeps the entry so, the code as written does not (`AsWrittenSavesRefusedText`) |
| ScaleSettings.LetterInsideIsRefused | co2_bottle_scale/src/settings.js:30-32 | "12ab", whose letters follow digits, is refused by the `isNaN` guard |
| ScaleSettings.AsWrittenSavesRefusedText | co2_bottle_scale/src/settings.js:28-74 | as written, "12" is posted and "12ab" is not, yet an answer that stores the field's "12ab" leaves non-numeric text in the form, and a save puts it into the context |
| ScaleSettings.SettingsView.constructor | co2_bottle_scale/src/settings.js:8-11 | the state is declared static, so the view starts with both fields undefined, so with an unset CO2 entry, and no post outstanding |
| ScaleSettings.SettingsView.HandleAddressChange | co2_bottle_scale/src/settings.js:24-26 | the new state is the old one after the address edit, and outstanding posts are unchanged |
| ScaleSettings.SettingsView.HandleContainedCo2Change | co2_bottle_scale/src/settings.js:28-37 | the request is the one for the typed text, the form state is unchanged, and a posted text joins the outstanding posts |
| ScaleSettings.SettingsView.Co2AnsweredAsWritten | co2_bottle_scale/src/settings.js:35-36 | as written: when the scale answers, the form's CO2 entry becomes the CO2 field's text at that moment, posted or not, numeric or not, and only that post leaves the outstanding ones |
| ScaleSettings.SettingsView.Co2Answered | co2_bottle_scale/src/settings.js:35-36 | corrected: when the scale answers, the form keeps that post's text as its CO2 entry, which is therefore numeric, and only that post leaves the outstanding ones |
| ScaleSettings.SettingsView.Co2Failed | co2_bottle_scale/src/settings.js:34-36 | a failed post leaves the form as it was, and only that post leaves the outstanding ones |
| ScaleSettings.SettingsView.Save | co2_bottle_scale/src/settings.js:65-75 | the context's new state is the old one after saving the form's state; with an unset or numeric CO2 entry the context's CO2 stays or becomes non-empty numeric text |

## Left out

- Locks, mutexes, threads, condition variables, `call_once` and sleeps are left out everywhere: the model is the sequential logic a single caller sees.
- Logging (`ESP_LOGI`, `console.log`) is left out: it changes no state.
- `RingBufferIterator` (smartaq/utils/container/ring_buffer.h:92-147) is left out: no core operation uses it, and its `operator!=` compares an iterator with a buffer.
- stack_string's `operator=` from a stack string of another size (smartaq/utils/stack_string.h:62-69) is left out: it copies `Size` bytes out of the other array whatever that array's size. `operator+=` is declared without a definition.
- DaySchedule's per-channel lookups used by schedule.h are not in day_schedule.h. They are modelled as the callers use them: the first, last, current and next slot holding a value for the channel.
- The interpolation arithmetic of `InterpolationTracker` is a function parameter. The model keeps its guards: no next event, no elapsed time.
- ScheduleTracker's channel times are indeterminate at construction, so the constructor takes them as an argument.
- `getDayOfWeek(const std::tm&)` has no definition in the source. It is modelled like the zero-argument form, as a cast of `tm_wday`.
- EventAccessArray `invokeOnRuntimeData` and `invokeOnAllRuntimeData` are left out except for their `hasValidRuntimeData` guard, because the callable is foreign code.
- EventAccessArray `GetValueOverview` writes JSON. The model returns the list of (index, name) entries it prints.
- The creation and update hooks of EventAccessArray are function parameters.
- LookupTables.FlagTracker: the destructor is the explicit call `Release`, made where C++ would destroy a tracker. The drivers that keep a tracker as a field are not modelled; the move they rely on is `MoveAsWritten`, and `Move` is its correction.
- `LargeBufferBorrower`'s move constructor and move assignment (a swap) are left out. Only its destructor, `ReleaseBorrower`, is modelled.
- `malloc` in the buffer pool can return null. The model instead requires distinct non-null addresses.
- `wait_for_free_buffer` is declared but not implemented. The stack and heap variants of the buffer pool share the modelled logic.
- The task pool's `doWork` loop is covered only through one selection step, `WakeUpRunsATask`. The model assumes the `_tasks` iteration skips empty slots.
- The task function, its description text, and `TaskResourceTracker`'s swap and move are left out.
- CheckAssign.CanBeExpressedInType covers integral types only. The floating-point half of `Number` (check_assign.h:19-40), whose round trip goes through a floating type, is left out with the rest of floating point.
- CheckAssign.IsContainedInType covers integral pairs only. The fallback that returns false for a mixed integral and floating pair (check_assign.h:38-39) is left out.
- CheckAssign.ContainedCharacterized characterises integral pairs only, for the same reason.
- TaskPools.WithoutId: `modifyOrRemove` is declared but not defined in the source. The model takes it to empty every slot holding the id. Ids come from an incrementing counter, so at most one slot holds a given id until the counter wraps.
- Bitsets.Bitset.Set and Bitsets.Bitset.Invert require the bit to lie inside the storage type. With 8- or 16-bit storage the source computes the masks in `int`, so `set` of a bit from the width up to 30 leaves the storage unchanged and `test` of it reads false. The model does not cover those calls.
- `createId` shifts of 32 bits or more are undefined in C++. The model drops every bit beyond the 16 of the id.
- `copy_parent_directory` on an empty path reads before the path's start, so the model requires a non-empty path. Its `int32_t` `copy_to_char` is a natural number, which matters only for paths longer than 2^31 characters.
- `channelIndex` counts with a `uint8_t`, which would wrap past 255 channels. The model counts without bound.
- File I/O is left out: the schedule driver's `read_from_json`, its `updateChannelTimes` persistence, and the statistics driver's file output.
- JSON and regular-expression parsing are inputs: the schedule driver's `json_scanf` and ctre matches, the PCF8575 address parser, and `create_stat`. The matched hours and minutes are assumed well formed.
- `strtof` is modelled by its outcome: each variable's number is an input, none when no number could be read.
- The schedule driver's header `read_from_json` dereferences an empty optional. That, the `channelNames` logging, the wait for clock synchronisation and the null `localtime` case are left out.
- WeekSchedules.WeekSchedule.FindEventStatus calls the corrected eight-pass day loop (`DaySearchLoop`); the code as written runs four passes (schedule.h:147,155) and can miss an event five or more days away.
- WeekSchedules.WeekSchedule.CurrentEventStatus is built on the corrected eight-pass search, not the four passes of the code as written.
- WeekSchedules.WeekSchedule.ChannelEventStatus runs the corrected eight-pass day loop, not the four passes of the code as written.
- ScheduleTrackers.GetEvent is defined with the corrected eight-pass search (`IntendedIterations`); with the four passes of the code as written, an event on a day the search no longer reaches is not found.
- ScheduleTrackers.ChannelValue rests on the corrected `GetEvent`, so it can yield a value where the code as written yields none.
- ScheduleTrackers.HoldFindsAnyScheduledEvent holds of the corrected search only: with the four passes of the code as written, a channel whose only event is on Saturday has no value on Monday.
- ScheduleTrackers.ScheduleTracker.GetEventOf returns the corrected eight-pass `GetEvent`.
- ScheduleTrackers.ScheduleTracker.GetCurrentChannelValue returns the corrected eight-pass `ChannelValue`.
- ScheduleTrackers.ScheduleTracker.GetCurrentChannelValues tabulates the corrected eight-pass `ChannelValue`, not the four-pass values of the code as written.
- ScheduleDrivers.CurrentValues takes the tracker values from the corrected eight-pass search.
- ScheduleDrivers.ScheduleDriver.UpdateValues writes the values of the corrected eight-pass search, so it can write a channel that the code as written leaves alone.
- ScheduleDrivers.ScheduleDriver.UpdateValues returns the writes it makes and does not model the outcome of `set_device_action`, which the source ignores.
- SwitchDriver: `create_driver` validation and the move constructor are left out. The device reads and writes are inputs, `difference` is a function parameter, and floats are `real`.
- Pcf8575Driver: `create_driver` is left out, including the first overload that returns a driver after a failed initialisation. I2C transfers, the reader thread and the destructor's `remove_address` are left out too.
- Pcf8575Drivers.Pcf8575Driver.WriteValue does not model the I2C payload: the source sends the configured pin values, not the written value.
- StatsDriver: `init_task`, the file output and the locks are left out, and the device read is the `readOk` parameter.
- SoftTimers: the task copies the table, works on the copy and writes it back (main/drivers/soft_timers.h:158,231). A timer added or removed during a round is then lost; the model runs a round atomically.
- SoftTimers: the action payload, and the wait for the clock's first valid year, are left out.
- SoftTimers: `weekday_mask` is an `int8_t`; the model uses a natural number whose bits 0 to 6 select the weekdays.
- Scale views: `fetch`, `setInterval`, JSON decoding and the network are left out. The fields of a response are inputs and are assumed to be numbers.
- ScaleHome.HomeView.Poll merges the interval tick with its response. A response arriving after unmount is not modelled.
- Scale settings: the `isNaN` white-space set is limited to the characters `IsWhiteSpace` lists, the POST body is modelled as its `contained_co2` text, and the tare response is only logged.
- Rendering, the form's `value=` bindings and the other UI files are left out. The CO2 input element's text when an answer arrives is a parameter of `Co2AnsweredAsWritten`.

## Findings

| source | as written | input that shows it | evidently intended | confidence | as-written member | corrected member |
|---|---|---|---|---|---|---|
| smartaq/utils/check_assign.h:56-60 | the mixed-sign branch compares an unsigned value with the signed type's limits, and rejects values that fit | `isWithinLimitsForType<int32_t>(5u)` is false | 5 is within the limits of `int32_t` | not executed | CheckAssign.UnsignedFiveRejected | CheckAssign.CheckAssign |
| smartaq/utils/time/schedule.h:147-155 | the day counter of the search loop is incremented twice per pass, so only four days are searched | starting on Monday with `AllDays`, the only event is on Saturday: it is not found | every day of the week is searched | not executed | WeekSchedules.WeekSchedule.DaySearchLoopAsWritten | WeekSchedules.WeekSchedule.DaySearchLoop |
| smartaq/utils/filesystem_utils.cpp:70-76 | a separator at index 1 sets `copy_to_char` to 0, which is read as "no separator" | path "a/b" gives "." | "a" | not executed | FilesystemUtils.AsWrittenLosesOneCharacterParent | FilesystemUtils.ParentIsWritten |
| smartaq/utils/time/time_utils.h:38-41 | the zero-argument `sinceWeekBeginning` returns only the time of day | Monday 10:00 gives 36000 s | 122400 s, the day offset included | not executed | TimeUtils.NowAsWrittenMondayExample | TimeUtils.SinceWeekBeginningNow |
| main/utils/event_access_array.h:294-308 | the `index_invalid` result for a start beyond the size is overwritten by `ok` | an overview starting at index `NumElements + 1` | `index_invalid` is returned | not executed | EventAccessArrays.EventAccessArray.GetValueOverviewAsWritten | EventAccessArrays.EventAccessArray.GetValueOverview |
| smartaq/drivers/schedule_driver.cpp:53-108 | `containsData` reflects only the last match, so a trailing empty entry rejects a valid schedule | "08-00:a=1;20-00:" | the schedule with one point at 08:00 is accepted | not executed | ScheduleDrivers.AsWrittenDropsTrailingEmptyMatch | ScheduleDrivers.ParseDaySchedule |
| smartaq/drivers/pcf8575_driver.cpp:193 | `read_value` masks the reading with the pin number instead of the pin's bit | reading 8 (only pin 3 high) on pin 3 reads 0 | bit `pin` of the reading | not executed | Pcf8575Drivers.AsWrittenMisreadsPins | Pcf8575Drivers.OnlyTheHighPinReadsHigh |
| smartaq/utils/container/lookup_table.h:17-18 | the defaulted move leaves the moved-from `std::optional` index engaged and copies the holder pointer, so the moved-from tracker's destructor writes the reset value back | `Bme280Driver::create_driver` moves its tracker into the driver and returns: the local's destruction frees the address, and a second driver on that address is accepted | the moved-from tracker is empty and only the driver's tracker frees the address | not executed | LookupTables.MovedFromReleaseFreesHeldKey | LookupTables.MovePreservesExclusiveAcquisition |
| co2_bottle_scale/src/settings.js:34-36 | the answer handler reads `event.target.value` again, which is the CO2 field's text when the answer arrives, not the text that was posted | "12" is posted, the field is then edited to "12ab", which `isNaN` refuses and nothing posts, and the answer to "12" arrives: the form holds "12ab" and a save puts it into the context | the form keeps "12", the entry the scale confirmed | not executed | ScaleSettings.AsWrittenSavesRefusedText | ScaleSettings.SettingsView.Co2Answered |
