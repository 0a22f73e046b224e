# Models of signal-processing cores and what they guarantee

This project models the hardest self-contained cores of the repository in Dafny and proves what they promise. Each core
is first told as plain values (its specification), then as it runs: classes with the fields the block updates, loops over
arrays and in-place passes, each method proved against the specification. Theorems about whole streams, whole runs and
all inputs are stated on the specification, so they hold of the methods too.

- **Noise blanker** (`NoiseBlanker*.dfy`): a delay line held in a ring, detection windows with look-back, runs of
  replaced samples, waiting tags, and a line that is resized while it runs. Every output is told from the inputs alone;
  tags and run lengths are conserved through every resize and reset; windows, streaks and runs have exact bounds, and
  the threshold is taken against a weighted mean of what passed.
- **Fourier transforms** (`ComplexNumbers`, `FourStep`, `FourStepPasses`, `Bits`, `TwiddleTables`, `CooleyTukey`): the
  blocked five-pass four-step split, its thread shares and two-table twiddles, and the recursive radix-2 transform, all
  over exact complex numbers with an abstract root of one.
- **Saturating conversion** (`FloatFormat`, `SaturatingCast`, `FloatToInt32`): the branch-free bit tricks on every bit
  pattern, against "round to nearest, ties to even, then saturate, and NaN gives 0" (sections 4.3.1 and 5.8 of IEEE
  754).
- **Audio capture** (`AudioCapture`, `AudioRuns`, `AudioCaptureTime`, `AudioTimesStay`, `AudioSource`): loss-free
  segments and capture times as a protocol over every interleaving of its atomic steps, silence and drop accounting, and
  the sixteen-slot ring.
- **Power meter** (`PowerMeterSpec`, `PowerMeterBlock`): eight-lane sums, the segment ring, records and back-pressure.
- **Squelch** (`Squelch*`, `ToneDetector`, `WeightedMean`): the ramp machine against a burst renderer,
  tag carry, the two power squelches against each other, and the Goertzel tone detector against the Fourier transform.
- **FM emphasis** (`FmEmphasis`): the design of the pair and its cascade. **Bit stuffing** (`BitStuffing`): flags,
  transparency and the inverse. **Graph migration** (`GraphMigration*`): which lines a migration rewrites and to
  what, told from the text, and that a second one rewrites nothing.

`dafny verify dfyconfig.toml` checks everything.

## What the proofs turned up

- The noise blanker's streak bound, `warmupLength + blank - 1`, holds of the inputs inside windows where `blank` is at
  most `warmupLength`. Without retriggering it then holds of the replaced outputs exactly where `lookback` is shorter
  than `blank` and a second bound, `RunLimit`, is no larger (`StreakBoundOnRuns`). `RunLimit` is what the longest run
  reaches: look-backs join windows while the excess count rises by less than the run grows. At the default lengths it is
  1728 outputs against 966. With a look-back as long as `blank` there is no bound at all (`LookbackRunsAreUnbounded`).
- `setRamp` in the middle of an attack can leave no step to go, and the next step then reads the entry behind the
  envelope. `RampChangeReadsBeyond` gives the exact condition in the old counter and the two lengths,
  `RampChangeMayOvershoot` a case: three of four steps done and a new ramp of two.
- With `ramp = 0` the power squelch passes the sample it closes on, and the simple squelch does not. Their outputs agree
  exactly on the streams on which every such sample is zero (`OutputsAgree`), and on every stream only if the threshold
  is not above 0 (`AgreeOnEveryStream`). The documentation claims equality on every sample; the model follows the code.
- The documentation says that every sample of a burst carries signal. That holds exactly where no ramp of zero that a
  sample follows meets a decay (`SignalUnlessDecayIsCut`). Such a decay ends in a silent sample
  (`CutDecayEndsInSilence`).
- Stored silence is counted after it is published. Samples that leave in between, read or evicted, and take some of it
  along leave `silenceInRing` above what the ring holds (`SplitCountExceeds` says exactly when, `SplitCountMayExceed`
  gives a state). The count is aggregate: it takes as many placeholders as leave samples, whatever those samples are.
- The FM documentation says of `tau` both that 0 is a bypass and that a value that is not positive throws. The code
  takes 0 as a bypass; `DesignsAccept` says which settings either half of the pair accepts.
- The migration script adds a line where it rewrites one whose body ends in a break of its own, such as a form feed. A
  second migration still changes nothing.

## Model

| member | source | states |
|---|---|---|
| NoiseBlankerStream.StreamOutput | blocks/analog/include/gnuradio-4.0/analog/NoiseBlanker.hpp:465-572 | Output m of a stream is the input `lookback + blank` earlier unless that one is marked, its replacement otherwise, with that input's tags and, on a run's last output, the run's length, all told from the inputs. |
| NoiseBlankerStream.MarkIsFinal | blocks/analog/include/gnuradio-4.0/analog/NoiseBlanker.hpp:492-501 | Once a sample is about to leave, later inputs change neither its mark nor its successor's. |
| NoiseBlankerStream.OutputIsFinal | blocks/analog/include/gnuradio-4.0/analog/NoiseBlanker.hpp:529-557 | Mark, run length, anchor, held count and visible end of an output are settled by the inputs up to it. |
| NoiseBlankerStream.LineContents | blocks/analog/include/gnuradio-4.0/analog/NoiseBlanker.hpp:487-501 | After any inputs the line holds the newest ones in order, each with the mark those inputs put on it. |
| NoiseBlankerStream.QueueContents | blocks/analog/include/gnuradio-4.0/analog/NoiseBlanker.hpp:256-276 | Each waiting tag stands with its own input, in line order. |
| NoiseBlankerStream.DrawnInside | blocks/analog/include/gnuradio-4.0/analog/NoiseBlanker.hpp:549-571 | An interpolated output lies between the sample before the run and the sample after the part in sight, strictly when they differ. |
| NoiseBlankerStream.AnchorBeforeRun | blocks/analog/include/gnuradio-4.0/analog/NoiseBlanker.hpp:532-537 | The anchor of a run is the sample right before it. |
| NoiseBlankerStream.ShortRunIsDrawn | blocks/analog/include/gnuradio-4.0/analog/NoiseBlanker.hpp:539-550 | A run no longer than the line never holds: its end is in sight from its first output. |
| NoiseBlankerStream.StraightLineIsKept | blocks/analog/include/gnuradio-4.0/analog/NoiseBlanker.hpp:522-571 | A short run that interrupts a straight line is put back on it exactly. |
| NoiseBlankerStream.OutputIsFinite | blocks/analog/include/gnuradio-4.0/analog/NoiseBlanker.hpp:470-479 | While the blanker is enabled no sample of non-finite power passes, so every output is finite. |
| NoiseBlankerLimits.WindowIsCapped | blocks/analog/include/gnuradio-4.0/analog/NoiseBlanker.hpp:492-519 | Over every stream window length plus what remains stays within max(maxWindow, lookback + blank), retriggering or not. |
| NoiseBlankerLimits.StreakIsBounded | blocks/analog/include/gnuradio-4.0/analog/NoiseBlanker.hpp:474-507 | With finite powers and blank at most warmupLength, at most warmupLength + blank - 1 inputs in a row are inside windows. |
| NoiseBlankerLimits.RunIsBounded | blocks/analog/include/gnuradio-4.0/analog/NoiseBlanker.hpp:474-507 | Without look-back the same bound holds of replaced outputs, retriggering or not. |
| NoiseBlankerRuns.ClustersAreRuns | blocks/analog/include/gnuradio-4.0/analog/NoiseBlanker.hpp:492-501 | The look-backs and windows that touch are exactly the runs of replaced outputs. |
| NoiseBlankerRuns.RunsStayWithin | blocks/analog/include/gnuradio-4.0/analog/NoiseBlanker.hpp:474-507 | Without retriggering, for `lookback < blank` and `lookback + blank <= warmupLength` or `blank == warmupLength`, no finite stream makes a run longer than `RunLimit`. |
| NoiseBlankerRuns.LimitIsReached | blocks/analog/include/gnuradio-4.0/analog/NoiseBlanker.hpp:474-507 | For every valid enabled setting with `lookback < blank <= warmupLength` some finite stream makes a run of exactly `RunLimit`. |
| NoiseBlankerRuns.LookbackRunsAreUnbounded | blocks/analog/include/gnuradio-4.0/analog/NoiseBlanker.hpp:492-507 | For every valid enabled setting with `lookback >= blank` finite streams make runs longer than any number. |
| NoiseBlankerRuns.StreakBoundOnRuns | blocks/analog/include/gnuradio-4.0/analog/NoiseBlanker.hpp:474-507 | Without retriggering, for `blank` at most `warmupLength`, the streak bound holds of runs if and only if `lookback < blank` and `RunLimit` is within it. |
| NoiseBlankerRuns.DefaultsExceedTheBound | blocks/analog/include/gnuradio-4.0/analog/NoiseBlanker.hpp:104-114 | At the default lengths the longest run is 1728 outputs, so the streak bound of 966 does not hold of runs. |
| NoiseBlankerTracker.TracksTheMean | blocks/analog/include/gnuradio-4.0/analog/NoiseBlanker.hpp:465-485 | Over every stream the tracked power is the exponentially weighted mean of the powers of the samples left in place: exactly where nothing is flushed, and else never above it and below it by at most the smallest normal number over alpha. |
| NoiseBlankerTracker.SteadyPower | blocks/analog/include/gnuradio-4.0/analog/NoiseBlanker.hpp:480-485 | After n passed samples of power p it is p (1 - (1 - alpha)^n). |
| NoiseBlankerTracker.OpensAboveTheMean | blocks/analog/include/gnuradio-4.0/analog/NoiseBlanker.hpp:469-479 | Once warmed up and outside a window, a finite input opens one if and only if its power exceeds the threshold times that mean. |
| NoiseBlankerTracker.OpensExactly | blocks/analog/include/gnuradio-4.0/analog/NoiseBlanker.hpp:465-479 | An input opens a window if and only if the blanker is enabled, none is open, and its power is not finite or, after the warm-up, above the threshold times the tracked power. |
| NoiseBlankerTracker.WindowIsBlank | blocks/analog/include/gnuradio-4.0/analog/NoiseBlanker.hpp:496-520 | Without retriggering a window is the opening input and the `blank - 1` after it, none of which opens another. |
| NoiseBlankerTracker.WindowEnds | blocks/analog/include/gnuradio-4.0/analog/NoiseBlanker.hpp:512-519 | A detection inside a retriggering window moves its end to `blank` samples from there, as far as the cap allows; nothing else moves an end. |
| NoiseBlankerTracker.ReportsTheDuty | blocks/analog/include/gnuradio-4.0/analog/NoiseBlanker.hpp:507-510 | The fraction reported is the weighted mean of the window duty, of ten times the time constant. |
| NoiseBlankerTags.TagsAreKept | blocks/analog/include/gnuradio-4.0/analog/NoiseBlanker.hpp:243-285 | Over any sequence of calls, settings changes and resets, published and waiting input tags together are the offered ones, once each, in order. |
| NoiseBlankerTags.EveryTagLeaves | blocks/analog/include/gnuradio-4.0/analog/NoiseBlanker.hpp:287-345 | With the end-of-stream call every offered tag has been published, once and in order. |
| NoiseBlankerTags.LengthsAddUp | blocks/analog/include/gnuradio-4.0/analog/NoiseBlanker.hpp:434-463 | Stated run lengths, waiting ones and the unfinished run add up to the replaced samples that left or were dropped, through every resize and reset. |
| NoiseBlankerTags.EveryReplacedSampleIsStated | blocks/analog/include/gnuradio-4.0/analog/NoiseBlanker.hpp:300-314 | At the end of the stream the stated lengths count every replaced sample, those still in the line included. |
| NoiseBlankerTags.NewestAreKept | blocks/analog/include/gnuradio-4.0/analog/NoiseBlanker.hpp:364-407 | Through every resize and reset the line keeps the newest inputs, and their tags stay with them. |
| NoiseBlankerSpec.DropKeepsRun | blocks/analog/include/gnuradio-4.0/analog/NoiseBlanker.hpp:440-461 | A length counted over dropped entries is that of a run which the next entry continues. |
| NoiseBlankerResize.DroppedLengthIs | blocks/analog/include/gnuradio-4.0/analog/NoiseBlanker.hpp:434-455 | Over dropped entries a length is carried exactly while its run goes on, and is that of all its entries with the outputs it already had. |
| NoiseBlankerResize.EndAtIs | blocks/analog/include/gnuradio-4.0/analog/NoiseBlanker.hpp:440-453 | A run that ends among dropped entries is stated with its whole length, and nothing else is stated. |
| NoiseBlankerResize.DroppedTagsAre | blocks/analog/include/gnuradio-4.0/analog/NoiseBlanker.hpp:436-458 | Dropped entries leave their tags in order, each run's marker behind those of its last entry. |
| NoiseBlankerResize.DroppedAnchorIs | blocks/analog/include/gnuradio-4.0/analog/NoiseBlanker.hpp:440-446 | The anchor after a drop is the newest dropped entry that was not replaced, and where all were, the one before. |
| NoiseBlankerResize.DroppedRunIs | blocks/analog/include/gnuradio-4.0/analog/NoiseBlanker.hpp:459-462 | A run that takes in every dropped entry goes on, and holds on if it held so far; any other has not begun to leave. |
| NoiseBlankerResize.ResizeGrows | blocks/analog/include/gnuradio-4.0/analog/NoiseBlanker.hpp:370-395 | A longer line takes in zeros ahead of the kept inputs, as part of a run that is leaving and of no other, without tags. |
| NoiseBlankerResize.ResizeShrinks | blocks/analog/include/gnuradio-4.0/analog/NoiseBlanker.hpp:370-398 | A shorter line keeps the newest entries in place, and its next output takes what the dropped ones leave. |
| NoiseBlankerResize.ResetClears | blocks/analog/include/gnuradio-4.0/analog/NoiseBlanker.hpp:243-246 | A reset leaves zeros without marks and a tracker that starts over; the next output takes what the line leaves. |
| NoiseBlankerBlock.FlattenIsSorted | blocks/analog/include/gnuradio-4.0/analog/NoiseBlanker.hpp:254-276 | Waiting tags are sorted and leave within [emitted, emitted + delay - 1]. |
| NoiseBlankerBlock.SortedIsEndOfStream | blocks/analog/include/gnuradio-4.0/analog/NoiseBlanker.hpp:302-315 | The stable sort of waiting tags and line markers gives the line's tags with a marker behind each run. |
| NoiseBlankerBlock.NoiseBlanker.Accept | blocks/analog/include/gnuradio-4.0/analog/NoiseBlanker.hpp:465-520 | Taking an input on the ring of slots refines the detector and the line of the specification. |
| NoiseBlankerBlock.NoiseBlanker.Produce | blocks/analog/include/gnuradio-4.0/analog/NoiseBlanker.hpp:529-572 | The search over the ring gives the specified output, and the length of the run it closes. |
| NoiseBlankerBlock.NoiseBlanker.Drop | blocks/analog/include/gnuradio-4.0/analog/NoiseBlanker.hpp:434-463 | Dropping inputs moves their tags and the markers of their runs to the next output, as the specification does. |
| NoiseBlankerBlock.NoiseBlanker.Relay | blocks/analog/include/gnuradio-4.0/analog/NoiseBlanker.hpp:370-407 | Resizing the ring keeps the newest entries, marks, tags and run, as the specification does. |
| NoiseBlankerBlock.NoiseBlanker.ResetLine | blocks/analog/include/gnuradio-4.0/analog/NoiseBlanker.hpp:243-246 | A reset drops every entry and restarts the tracker; the line's tags move to the next output. |
| NoiseBlankerBlock.NoiseBlanker.Configured | blocks/analog/include/gnuradio-4.0/analog/NoiseBlanker.hpp:193-233 | Settings are resolved and taken as a whole, or refused with nothing changed. |
| NoiseBlankerSettings.RefusedExactly | blocks/analog/include/gnuradio-4.0/analog/NoiseBlanker.hpp:195-212 | Settings are refused exactly for an unknown replacement, a pole outside (0, 1], or one that cannot be derived. |
| NoiseBlankerSettings.ResolvedPole | blocks/analog/include/gnuradio-4.0/analog/detail/Averager.hpp:11-17 | Without an averaging time the pole is the one asked for, and the warm-up the least count of samples from 1 / alpha on. |
| NoiseBlankerSettings.ResolvedTime | blocks/analog/include/gnuradio-4.0/analog/detail/Averager.hpp:18-26 | With one the pole is 1 - exp(-1 / samples), and the warm-up the least count from the averaging time on. |
| NoiseBlankerSettings.ResolvedRest | blocks/analog/include/gnuradio-4.0/analog/NoiseBlanker.hpp:216-229 | Every other setting is taken as asked for, and a cap of 0 is four times `blank`. |
| NoiseBlankerSettings.ResolvedAgain | blocks/analog/include/gnuradio-4.0/analog/NoiseBlanker.hpp:216-233 | The pole written back resolves to the same settings, and taking them again changes nothing. |
| NoiseBlankerSettings.ConfigureKeeps | blocks/analog/include/gnuradio-4.0/analog/NoiseBlanker.hpp:214-233 | The warm-up restarts if and only if the pole moved or the blanker was just enabled; level, excess, window and an unresized line stay. |
| NoiseBlankerSettings.DefaultsResolve | blocks/analog/include/gnuradio-4.0/analog/NoiseBlanker.hpp:104-143 | The default settings resolve to a cap of 28 and a warm-up of 960 samples. |
| NoiseBlankerBlock.NoiseBlanker.Start | blocks/analog/include/gnuradio-4.0/analog/NoiseBlanker.hpp:236-240 | A new run of the stream: nothing waits and outputs count from zero. |
| NoiseBlankerBlock.NoiseBlanker.ProcessBulk | blocks/analog/include/gnuradio-4.0/analog/NoiseBlanker.hpp:248-285 | A call plays the specification on as many samples as both sides hold, output by output, with every due tag at its sample's offset. |
| NoiseBlankerBlock.NoiseBlanker.ForwardTags | blocks/analog/include/gnuradio-4.0/analog/NoiseBlanker.hpp:296-345 | At the end of the stream the line's tags and run markers go out in index order, then the tags no call has placed, without the key kept back; a call that processed samples sends nothing. |
| FourStep.FourStepIsDft | library/algorithm/benchmarks/bm_fft_backends.cpp:264-307 | Column transforms, twiddles and row transforms compose to bin k2 n1 + k1 of the whole transform. |
| FourStep.ColumnPart | library/algorithm/benchmarks/bm_fft_backends.cpp:245-250 | A column's turned bin is that column's part of the whole bin. |
| FourStepPasses.Transform | library/algorithm/benchmarks/bm_fft_backends.cpp:242-308 | For every n1, n2, thread count and order of the threads' shares the five passes leave bin k at place k, and each pass writes every cell exactly once. |
| FourStepPasses.TransposeShare | library/algorithm/benchmarks/bm_fft_backends.cpp:265-275 | A thread's share of a blocked transpose writes exactly the cells of its own bands, once each. |
| FourStepPasses.TransposePass | library/algorithm/benchmarks/bm_fft_backends.cpp:281-291 | The shares together write every cell once and leave the transposed, twiddled record, and so does every interleaving of those writes. |
| FourStepPasses.TransformPass | library/algorithm/benchmarks/bm_fft_backends.cpp:276-296 | The shares together transform every row once, and every interleaving of those writes leaves the same record. |
| TwiddleTables.SharesPartition | library/algorithm/benchmarks/bm_fft_backends.cpp:145-153 | The equal contiguous chunks put every item in exactly one thread's share. |
| TwiddleTables.ChunkIsLeast | library/algorithm/benchmarks/bm_fft_backends.cpp:145-153 | Chunks are as short as they can be for all threads together to cover every item. |
| TwiddleTables.TablesGiveRoot | library/algorithm/benchmarks/bm_fft_backends.cpp:181-197 | Shift and mask stay inside the two tables, and the entries multiply to the root at i1 * i2. |
| TwiddleTables.TwiddlePass | library/algorithm/benchmarks/bm_fft_backends.cpp:193-202 | On any number of threads in any order every cell is turned by its own twiddle once. |
| CooleyTukey.Butterfly | blocks/fourier/benchmarks/bm_fft_block.cpp:37-42 | The two bins of a butterfly are the sum and difference of the even bin and the turned odd bin. |
| CooleyTukey.ComputeFft | blocks/fourier/benchmarks/bm_fft_block.cpp:18-43 | For every power-of-two length the recursion ends and leaves every bin of the transform in place. |
| FloatFormat.RoundsToNearestEven | blocks/basic/include/gnuradio-4.0/basic/ConverterBlocks.hpp:83-89 | The rounding of the specification is the nearest integer and, of two, the even one: if and only if. |
| FloatFormat.ClampThenRound | blocks/basic/include/gnuradio-4.0/basic/ConverterBlocks.hpp:125-131 | Clamping to whole numbers and rounding commute. |
| FloatFormat.RoundIsNearest | blocks/basic/include/gnuradio-4.0/basic/ConverterBlocks.hpp:45-46 | The modelled float addition rounds to a representable number nearest to the exact sum. |
| SaturatingCast.IsNaNIsExact | blocks/basic/include/gnuradio-4.0/basic/ConverterBlocks.hpp:62-70 | The comparison of bits is true of the NaNs and of nothing else. |
| SaturatingCast.NaNIsCleared | blocks/basic/include/gnuradio-4.0/basic/ConverterBlocks.hpp:127-129 | The mask clears a NaN to zero, leaves every other pattern, and no difference on the way overflows. |
| SaturatingCast.ClampOfPattern | blocks/basic/include/gnuradio-4.0/basic/ConverterBlocks.hpp:130-130 | Clamping patterns clamps what they stand for, infinities included. |
| SaturatingCast.MagicSum | blocks/basic/include/gnuradio-4.0/basic/ConverterBlocks.hpp:43-57 | The bits of the sum with the magic number, less its bits, are the rounded integer. |
| SaturatingCast.CastIsSaturating | blocks/basic/include/gnuradio-4.0/basic/ConverterBlocks.hpp:124-132 | For every pattern of either format and every integer range that fits, the branch-free conversion equals round-ties-to-even, saturated, with NaN giving 0. |
| SaturatingCast.EveryFittingTypeIsSaturating | blocks/basic/include/gnuradio-4.0/basic/ConverterBlocks.hpp:27-33 | So do float and double, of any bits, to every integer type of at least two digits fewer, signed or not. |
| FloatToInt32.Int32IsSaturating | blocks/basic/include/gnuradio-4.0/basic/ConverterBlocks.hpp:94-106 | For every float pattern the signed-shift path equals round-ties-to-even saturated to 32 bits, with NaN giving 0. |
| FloatToInt32.NoOverflow | blocks/basic/include/gnuradio-4.0/basic/ConverterBlocks.hpp:99-106 | No difference of patterns on that path leaves the 32-bit integers. |
| AudioRuns.StepIsConsistent | blocks/audio/include/gnuradio-4.0/audio/AudioBackends.hpp:276-426 | Every loss note, write, record, read and eviction keeps the ring whole, the segments covering, the losses marked, every stated time sound and the counts adding up. |
| AudioRuns.RecordIsConsistent | blocks/audio/include/gnuradio-4.0/audio/AudioBackends.hpp:289-310 | A record is taken exactly when no loss follows the newest frame and its stretch has a slot, and then states that frame's time. |
| AudioRuns.OpenIsSound | blocks/audio/include/gnuradio-4.0/audio/AudioBackends.hpp:428-448 | Opening or reusing a segment, or running out of slots, leaves every other stated time sound. |
| AudioCaptureTime.EveryFrameHasItsSegment | blocks/audio/include/gnuradio-4.0/audio/AudioBackends.hpp:312-331 | A frame unread or in the latest read lies in exactly one live segment, and the query states what that segment does. |
| AudioCaptureTime.TimesStayInTheirStretch | blocks/audio/include/gnuradio-4.0/audio/AudioBackends.hpp:239-242 | A capture time always goes back to a measurement with no loss between the two frames. |
| AudioCaptureTime.ExtrapolatesAtTheRate | blocks/audio/include/gnuradio-4.0/audio/AudioBackends.hpp:312-331 | At one rate a stated time is less than a nanosecond off the measured time and the frames in between. |
| AudioCaptureTime.DurationIsRounded | blocks/audio/include/gnuradio-4.0/audio/AudioBackends.hpp:331-331 | A duration in nanoseconds is within half a nanosecond of frames / rate, and never falls as frames grow. |
| AudioTimesStay.StatedTimesStay | blocks/audio/include/gnuradio-4.0/audio/AudioBackends.hpp:245-248 | A frame that stays readable reads back as before whatever a step does, unless its own stretch is recorded, or a write finds every slot taken and it lies in the latest segment. |
| AudioTimesStay.HistoryIsTrue | blocks/audio/include/gnuradio-4.0/audio/AudioBackends.hpp:276-310 | The losses and measurements that the guarantees speak of are exactly those noted, dropped and recorded, and none is forgotten. |
| AudioTimesStay.OpenKeepsTheOthers | blocks/audio/include/gnuradio-4.0/audio/AudioBackends.hpp:428-448 | A loss opens a segment at once while one of sixteen slots is free and leaves all others as they are; else only the latest loses its time. |
| AudioTimesStay.RetiredExactly | blocks/audio/include/gnuradio-4.0/audio/AudioBackends.hpp:450-460 | Retiring keeps the segment of the oldest unread sample and all later ones, and no other. |
| AudioCaptureTime.RecordedTimeReadsBack | blocks/audio/include/gnuradio-4.0/audio/AudioBackends.hpp:289-331 | The newest frame just recorded reads back exactly its own time. |
| AudioCaptureTime.EveryRunKeepsTimes | blocks/audio/include/gnuradio-4.0/audio/AudioBackends.hpp:249-331 | After any run: one to sixteen segments with rising starts, and no time carried across a loss. |
| AudioCaptureTime.EverySampleIsAccountedFor | blocks/audio/include/gnuradio-4.0/audio/SoundIoBackend.hpp:574-611 | After any run every offered sample was dropped, delivered or evicted or is in the ring, and stored silence was read or evicted or is in the ring, which bounds its count. |
| AudioCaptureTime.SplitCountExceeds | blocks/audio/include/gnuradio-4.0/audio/SoundIoBackend.hpp:606-612 | With any reads and evictions between publishing silence and counting it, the count exceeds the ring if and only if they took some of it. |
| AudioCaptureTime.SplitCountMayExceed | blocks/audio/include/gnuradio-4.0/audio/SoundIoBackend.hpp:606-612 | A ring of one sample, empty before, in which it does. |
| AudioSource.InterleavedIsOneCopy | blocks/audio/include/gnuradio-4.0/audio/SoundIoBackend.hpp:114-124 | Channels that pass the interleaving test lie in memory as the frames are stored. |
| AudioSource.CopyFrames | blocks/audio/include/gnuradio-4.0/audio/SoundIoBackend.hpp:638-654 | The one-copy path and the sample-by-sample path store the same frames and move every channel past them. |
| AudioSource.AudioSource.OpenSegment | blocks/audio/include/gnuradio-4.0/audio/AudioBackends.hpp:428-448 | Slots used in turn modulo sixteen hold the live segments: the next slot is free whenever fewer than sixteen are live. |
| AudioSource.AudioSource.RetireSegments | blocks/audio/include/gnuradio-4.0/audio/AudioBackends.hpp:450-460 | The segments that end at or before the oldest unread sample are retired, and no other. |
| AudioSource.AudioSource.RecordCaptureTime | blocks/audio/include/gnuradio-4.0/audio/AudioBackends.hpp:289-310 | A record on the slots is the record of the protocol. |
| AudioSource.AudioSource.CaptureTimeNs | blocks/audio/include/gnuradio-4.0/audio/AudioBackends.hpp:312-331 | The search over the slots answers the protocol's query, and nothing for a rate that is not positive. |
| AudioSource.AudioSource.NoteCaptureLoss | blocks/audio/include/gnuradio-4.0/audio/AudioBackends.hpp:276-277 | A loss noted falls after the newest stored sample and is pending until the next write. |
| AudioSource.AudioSource.BeginSegmentAfterLoss | blocks/audio/include/gnuradio-4.0/audio/AudioBackends.hpp:279-287 | A pending loss opens a segment where the next samples go, or stays overdue. |
| AudioSource.AudioSource.Publish | blocks/audio/include/gnuradio-4.0/audio/SoundIoBackend.hpp:574-611 | The ring grows by exactly the samples stored; the shortfall is counted as dropped and noted as a loss. |
| AudioSource.AudioSource.WriteSilenceFrames | blocks/audio/include/gnuradio-4.0/audio/SoundIoBackend.hpp:582-611 | The greatest number of whole frames that the offer, the grant and the room allow is stored as silence and counted; the rest is dropped, counted and noted as a loss, if there is any. |
| AudioSource.AudioSource.WriteFramesFromAreas | blocks/audio/include/gnuradio-4.0/audio/SoundIoBackend.hpp:613-659 | The greatest number of whole frames that the offer, the grant and the room allow is stored interleaved, and every channel moves past it; the rest is dropped, counted and noted as a loss, if there is any. |
| AudioSource.DropsOnlyWhenFull | blocks/audio/include/gnuradio-4.0/audio/SoundIoBackend.hpp:619-636 | With everything granted, frames are dropped only where less than one frame of room is left. |
| AudioSource.AudioSource.ReadToOutput | blocks/audio/include/gnuradio-4.0/audio/AudioBackends.hpp:407-425 | The oldest whole frames leave in order, as many as are there and fit the output, and the rest stay. |
| AudioSource.AudioSource.DiscardOldest | blocks/audio/include/gnuradio-4.0/audio/AudioBackends.hpp:396-405 | The oldest samples go, and those not counted before are returned. |
| PowerMeterSpec.LaneIsEveryEighth | blocks/analog/include/gnuradio-4.0/analog/PowerMeter.hpp:285-298 | Lane j holds, in order, exactly the segment offsets that leave remainder j modulo eight. |
| PowerMeterSpec.LanesHoldAllEnergy | blocks/analog/include/gnuradio-4.0/analog/PowerMeter.hpp:311-316 | The lanes' sums add up to the whole segment's energy. |
| PowerMeterSpec.EnergyIsTheSquare | blocks/analog/include/gnuradio-4.0/analog/PowerMeter.hpp:285-298 | The energy of a sample is the sample times its conjugate. |
| PowerMeterSpec.RecordIsTheMeanOfItsWindow | blocks/analog/include/gnuradio-4.0/analog/PowerMeter.hpp:311-338 | Record k covers samples k W to (k + 1) W, states where they begin, and its power is the mean of their squared magnitudes. |
| PowerMeterSpec.OneRecordAWindow | blocks/analog/include/gnuradio-4.0/analog/PowerMeter.hpp:330-337 | One record for every window's worth of closed segments. |
| PowerMeterSpec.RoomClosesAtMost | blocks/analog/include/gnuradio-4.0/analog/PowerMeter.hpp:245-265 | Within the room at most the free number of windows closes, exactly that many at its end, and with none free one sample more closes one. |
| PowerMeterSpec.OneSplit | blocks/analog/include/gnuradio-4.0/analog/PowerMeter.hpp:280-309 | A stream splits into full segments and a rest in one way only. |
| PowerMeterSpec.TailIsTheMean | blocks/analog/include/gnuradio-4.0/analog/PowerMeter.hpp:193-206 | The power of the trailing record is the mean over the last closed segments of the stream. |
| PowerMeterBlock.RingHoldsTheNewest | blocks/analog/include/gnuradio-4.0/analog/PowerMeter.hpp:319-320 | The slots are the newest segment powers, turned by where the next goes. |
| PowerMeterBlock.ReadingOfSlots | blocks/analog/include/gnuradio-4.0/analog/PowerMeter.hpp:322-328 | The slot-order mean is the mean of the newest segments' powers. |
| PowerMeterBlock.TakeRun | blocks/analog/include/gnuradio-4.0/analog/PowerMeter.hpp:283-298 | The loop to the lane boundary, the loop of eights and the tail loop put every sample in its lane in order. |
| PowerMeterBlock.PowerMeter.FoldSegment | blocks/analog/include/gnuradio-4.0/analog/PowerMeter.hpp:311-328 | A full segment's power goes into its slot and the reading follows. |
| PowerMeterBlock.PowerMeter.CloseSegment | blocks/analog/include/gnuradio-4.0/analog/PowerMeter.hpp:311-338 | Closing a segment builds a record exactly at a window's last one. |
| PowerMeterBlock.PowerMeter.Accumulate | blocks/analog/include/gnuradio-4.0/analog/PowerMeter.hpp:280-309 | Any call folds its whole input, and exactly the records of the windows it closes are built. |
| PowerMeterBlock.PowerMeter.RoomFor | blocks/analog/include/gnuradio-4.0/analog/PowerMeter.hpp:249-265 | Both 64-bit saturation branches give the exact room, capped at the size type's maximum. |
| PowerMeterBlock.PowerMeter.Drain | blocks/analog/include/gnuradio-4.0/analog/PowerMeter.hpp:267-278 | Pending records leave from the front, as many as fit. |
| PowerMeterBlock.PowerMeter.ProcessBulk | blocks/analog/include/gnuradio-4.0/analog/PowerMeter.hpp:173-191 | A call takes exactly the input whose records fit, publishes in order, and never leaves more records pending than there were. |
| PowerMeterBlock.PowerMeter.ProcessEpilogue | blocks/analog/include/gnuradio-4.0/analog/PowerMeter.hpp:193-211 | At the end all input is folded, and one last record states the segments since the last one, once and if there is room. |
| PowerMeterBlock.PowerMeter.RecordsAreWindowMeans | blocks/analog/include/gnuradio-4.0/analog/PowerMeter.hpp:61-66 | Of a running meter, record k since the last reset is the mean over window k of the stream it took, and states where that window begins. |
| PowerMeterBlock.PowerMeter.Reset | blocks/analog/include/gnuradio-4.0/analog/PowerMeter.hpp:150-159 | A reset starts a window at the current stream index and keeps what is pending. |
| PowerMeterBlock.PowerMeter.Start | blocks/analog/include/gnuradio-4.0/analog/PowerMeter.hpp:143-148 | A start counts the stream from zero with nothing pending. |
| PowerMeterBlock.SplitDoesNotMatter | blocks/analog/include/gnuradio-4.0/analog/PowerMeter.hpp:280-309 | Two meters that took the same stream in different calls are in the same state. |
| SquelchSpec.PlayIsRender | blocks/analog/include/gnuradio-4.0/analog/Squelch.hpp:98-146 | From reset, for every ramp and every sequence of decisions, the machine renders silence and bursts, the last possibly cut by the end. |
| SquelchSpec.BurstIsClosed | blocks/analog/include/gnuradio-4.0/analog/Squelch.hpp:44-51 | A burst has at least 2 ramp + 1 samples, a start tag on the first only, an end tag on the last only, and gains that mirror. |
| SquelchSpec.GainWithoutRamp | blocks/analog/include/gnuradio-4.0/analog/Squelch.hpp:125-132 | At ramp 0 a sample passes if and only if the detector is open on it or was on the one before. |
| SquelchPower.OutputsAgree | blocks/analog/include/gnuradio-4.0/analog/Squelch.hpp:478-480 | At ramp 0 the two squelches put out the same samples if and only if every sample the detector closes on is zero. |
| SquelchPower.OutputsMayDiffer | blocks/analog/include/gnuradio-4.0/analog/Squelch.hpp:478-480 | A stream of two samples on which they differ, with the detector run on it. |
| SquelchPower.AgreeOnEveryStream | blocks/analog/include/gnuradio-4.0/analog/Squelch.hpp:478-480 | For every averager coefficient they agree on every stream if and only if the threshold is not above 0. |
| SquelchPower.CallPutsOut | blocks/analog/include/gnuradio-4.0/analog/Squelch.hpp:224-242 | Without gating a call puts out each sample in its place at its gain, whatever tags come with them. |
| SquelchPower.PowerDetector.Unmuted | blocks/analog/include/gnuradio-4.0/analog/Squelch.hpp:150-164 | One step of the average, flushed below the smallest normal number, against the threshold. |
| SquelchPower.HearsTheMean | blocks/analog/include/gnuradio-4.0/analog/Squelch.hpp:150-164 | Over every stream from rest the power is the exponentially weighted mean of the squared magnitudes, less at most what was flushed. |
| SquelchPower.PowerSquelch.ProcessBulk | blocks/analog/include/gnuradio-4.0/analog/Squelch.hpp:335-345 | A call runs the detector over its samples and the gate over its answers. |
| SquelchPower.SimpleSquelch.ProcessBulk | blocks/analog/include/gnuradio-4.0/analog/Squelch.hpp:512-521 | Each output is the sample or zero as the detector answers, and the last answer stays readable. |
| SquelchSpec.RampChangeReadsBeyond | blocks/analog/include/gnuradio-4.0/analog/Squelch.hpp:77-146 | After a ramp change some step reads past the envelope, for any decisions, if and only if an attack is under way and the new length is 1, or above 1 with `2 * length * (ramp - counter) <= ramp`; it is the next step. |
| SquelchSpec.RescaledIsNearest | blocks/analog/include/gnuradio-4.0/analog/Squelch.hpp:94-95 | No step of the new ramp is nearer to where the old one was: the envelope moves by half a step of the new ramp at most, or the ramp is at its first step. |
| SquelchSpec.RampChangeMayOvershoot | blocks/analog/include/gnuradio-4.0/analog/Squelch.hpp:94-119 | A reachable attack and a new ramp of two: the next step reads entry 3. |
| SquelchSpec.GainIsTheEntryRead | blocks/analog/include/gnuradio-4.0/analog/Squelch.hpp:113-146 | The gain of a step is the envelope entry it reads, or none. |
| SquelchSpec.SignalUnlessDecayIsCut | blocks/analog/include/gnuradio-4.0/analog/Squelch.hpp:291-293 | However samples and ramp changes are mixed, every produced sample carries signal if and only if no ramp of zero that a sample follows meets a decay. |
| SquelchSpec.CutDecayEndsInSilence | blocks/analog/include/gnuradio-4.0/analog/Squelch.hpp:88-102 | A ramp of zero meets a decay: the sample with the end tag is silent. |
| SquelchSpec.ZeroRampCutsShort | blocks/analog/include/gnuradio-4.0/analog/Squelch.hpp:88-102 | A ramp of zero ends a rise at once at full amplitude, and a fall with one silent sample that ends the burst. |
| SquelchSpec.BurstTagsAlternate | blocks/analog/include/gnuradio-4.0/analog/Squelch.hpp:52-147 | However samples and safe ramp changes are mixed, start and end tags alternate around exactly what is produced. |
| SquelchBlock.GateMachine.SetRamp | blocks/analog/include/gnuradio-4.0/analog/Squelch.hpp:77-96 | The envelope is rebuilt, a ramp in progress rescaled or, at length zero, ended with its tag still owed. |
| SquelchBlock.GateMachine.Step | blocks/analog/include/gnuradio-4.0/analog/Squelch.hpp:98-146 | One sample through the fields is one step of the specification, and every envelope index is in bounds. |
| SquelchBlock.TagsAreConserved | blocks/analog/include/gnuradio-4.0/analog/Squelch.hpp:223-269 | Tags held and tags that came in either left with an output or are held, in order, none twice. |
| SquelchBlock.TagsMoveToTheNextOutput | blocks/analog/include/gnuradio-4.0/analog/Squelch.hpp:204-212 | The outputs are the kept samples in order, and each takes exactly the tags of the samples since the one before. |
| SquelchBlock.SquelchGate.Collect | blocks/analog/include/gnuradio-4.0/analog/Squelch.hpp:244-255 | The cursor takes exactly the tags of the current sample. |
| SquelchBlock.SquelchGate.Run | blocks/analog/include/gnuradio-4.0/analog/Squelch.hpp:223-242 | A call gates its samples and publishes its tags as specified. |
| ToneDetector.GoertzelIsTheTransform | blocks/analog/include/gnuradio-4.0/analog/Squelch.hpp:166-193 | For any samples and any c, s on the circle, (c s1 - s2)^2 + (s s1)^2 is the squared magnitude of the transform at that angle. |
| ToneDetector.DecisionsUseTheLastBlock | blocks/analog/include/gnuradio-4.0/analog/Squelch.hpp:420-426 | Every decision is taken on exactly the last `length` samples, and holds until the next. |
| ToneDetector.SquaresCompare | blocks/analog/include/gnuradio-4.0/analog/Squelch.hpp:188-192 | Comparing squared magnitudes is comparing magnitudes over the length. |
| ToneDetector.OpensWhenCenterStandsOut | blocks/analog/include/gnuradio-4.0/analog/Squelch.hpp:459-467 | A block opens if and only if the center magnitude over the length reaches the level and exceeds both neighbours. |
| ToneDetector.Goertzel.Energy | blocks/analog/include/gnuradio-4.0/analog/Squelch.hpp:188-192 | The recursion's fields give the transform's squared magnitude of all samples pushed. |
| ToneDetector.CtcssDetector.DetectorUnmuted | blocks/analog/include/gnuradio-4.0/analog/Squelch.hpp:420-426 | One sample: the standing decision, or a new one at the end of a block. |
| ToneDetector.CtcssDetector.Decide | blocks/analog/include/gnuradio-4.0/analog/Squelch.hpp:459-467 | The decision is that of the magnitudes of the block's transforms at the three tones, and the block starts over. |
| FmEmphasis.DesignsCancel | blocks/analog/include/gnuradio-4.0/analog/FmEmphasis.hpp:60-84 | The designed zero of the pre-emphasis cancels the pole of the de-emphasis. |
| FmEmphasis.PairFollowsLowpass | blocks/analog/include/gnuradio-4.0/analog/FmEmphasis.hpp:135-155 | From rest, cascaded sections that cancel filter every stream as the lowpass does. |
| FmEmphasis.PairIsALowpass | blocks/analog/include/gnuradio-4.0/analog/FmEmphasis.hpp:49-85 | At one rate and tau both halves exist or neither does; at tau 0 the pair is the identity, and otherwise exactly the single-pole lowpass at the high corner, or at 0.4625 of the rate where that corner is not between 0 and half the rate. |
| FmEmphasis.DeemphasisResponse | blocks/analog/include/gnuradio-4.0/analog/FmEmphasis.hpp:94-100 | The de-emphasis passes a constant unchanged and half of the power at the corner of tau. |
| FmEmphasis.OutputsAreFlushed | blocks/analog/include/gnuradio-4.0/analog/FmEmphasis.hpp:135-155 | Each output is the recursion on the two newest inputs and the output before, and 0 where that is below the smallest normal number. |
| FmEmphasis.BypassIsIdentity | blocks/analog/include/gnuradio-4.0/analog/FmEmphasis.hpp:46-53 | The bypass passes every stream unchanged from any state. |
| FmEmphasis.FilterSplits | blocks/analog/include/gnuradio-4.0/analog/FmEmphasis.hpp:202-222 | Splitting a stream into calls changes no output, with flushing too. |
| FmEmphasis.EmphasisFilter.ProcessBulk | blocks/analog/include/gnuradio-4.0/analog/FmEmphasis.hpp:135-155 | The loop filters as many samples as both spans hold and leaves the state behind them. |
| FmEmphasis.DesignsAccept | blocks/analog/include/gnuradio-4.0/analog/FmEmphasis.hpp:22-85 | Either half accepts a positive rate with tau 0, or with a corner of a positive tau below half the rate, and nothing else. |
| BitStuffing.Stuff | blocks/digital/benchmarks/bm_DelimiterExtractor.cpp:92-110 | The loop stuffs a zero after every run of k ones. |
| BitStuffing.UnstuffTakesBack | blocks/digital/benchmarks/bm_DelimiterExtractor.cpp:92-110 | Unstuffing gives back every payload. |
| BitStuffing.StuffingIsInjective | blocks/digital/benchmarks/bm_DelimiterExtractor.cpp:92-110 | Different payloads are stuffed differently. |
| BitStuffing.StuffedOnlyAfterRuns | blocks/digital/benchmarks/bm_DelimiterExtractor.cpp:92-110 | Nothing is stuffed if and only if no k ones stand in a row. |
| BitStuffing.StuffedLength | blocks/digital/benchmarks/bm_DelimiterExtractor.cpp:94-95 | At most one zero is added for every k bits. |
| BitStuffing.EveryStretchHasAZero | blocks/digital/benchmarks/bm_DelimiterExtractor.cpp:97-108 | Among any k + 1 stuffed bits in a row there is a zero. |
| BitStuffing.FlagsAreDelimiters | blocks/digital/benchmarks/bm_DelimiterExtractor.cpp:112-130 | Over any number of frames the flag pattern stands at the delimiters and nowhere else. |
| BitStuffing.FrameReadsBack | blocks/digital/benchmarks/bm_DelimiterExtractor.cpp:112-130 | What stands between two delimiters unstuffs to the payload between them. |
| BitStuffing.WireIsInjective | blocks/digital/benchmarks/bm_DelimiterExtractor.cpp:115-130 | Two lists of payloads never share a wire. |
| BitStuffing.CutKeepsFlags | blocks/digital/benchmarks/bm_DelimiterExtractor.cpp:128-128 | Cutting the wire keeps every flag that still fits and makes no other. |
| BitStuffing.StuffedStream | blocks/digital/benchmarks/bm_DelimiterExtractor.cpp:114-130 | The stream is a start of the wire of just enough frames, cut to the length asked for. |
| GraphMigration.SplitTopLevel | tools/migrate_generator_settings.py:101-115 | The loop gives the stripped pieces between commas outside brackets. |
| GraphMigration.PiecesJoin | tools/migrate_generator_settings.py:101-115 | Put together with commas, the unstripped pieces are the argument list. |
| GraphMigration.MigratedIdStays | tools/migrate_generator_settings.py:118-136 | A migrated id needs no migration and keeps its base name. |
| GraphMigration.StepTwice | tools/migrate_generator_settings.py:147-183 | A rewritten line is not rewritten again and leaves the next line in the same place. |
| GraphMigrationRules.FrequencyIsRenamed | tools/migrate_generator_settings.py:154-181 | A line that is no id line is rewritten if and only if its key is `frequency:`, the nearest id line above names one of the two generators, and every line since is blank or indented deeper; its key becomes `tone_frequency:`. |
| GraphMigrationRules.IdIsMigrated | tools/migrate_generator_settings.py:118-168 | An id line is rewritten if and only if its base name is one of the families and its closed list has a comma outside brackets; it keeps the name and the first argument. |
| GraphMigrationRules.ArgumentsDivide | tools/migrate_generator_settings.py:101-115 | A list has two or more arguments if and only if it has a comma outside brackets, and the first ends at the first of them. |
| GraphMigrationRules.IdLinesParse | tools/migrate_generator_settings.py:96-98 | A line is an id line if and only if it is lead, `id:`, white space and value put together. |
| GraphMigrationRules.WhiteSpaceIs | tools/migrate_generator_settings.py:95-98 | White space is these 29 code points. |
| GraphMigrationRules.BreaksAre | tools/migrate_generator_settings.py:141-141 | Lines break at these ten. |
| GraphMigrationRules.ThirtyThreeFamilies | tools/migrate_generator_settings.py:59-93 | Thirty-three families are renamed. |
| GraphMigrationText.Migrate | tools/migrate_generator_settings.py:139-185 | The loop rewrites the lines in place and numbers the changes as the rules say. |
| GraphMigrationText.ReportsNameTheRewritten | tools/migrate_generator_settings.py:139-183 | The reports name exactly the lines that the rules rewrite. |
| GraphMigrationText.UnreportedLinesStay | tools/migrate_generator_settings.py:139-185 | A line that no report names is as it was. |
| GraphMigrationText.MigratingTwiceIsMigratingOnce | tools/migrate_generator_settings.py:139-185 | For every text, whatever its line ends, a second migration changes and reports nothing; the first adds one line for each rewritten line whose body ends in a break. |
| GraphMigrationText.LinesAppend | tools/migrate_generator_settings.py:141-141 | Two texts that part at a line end split into the lines of the one and of the other. |

## Left out

- The runtime around the blocks: ports, circular buffers, schedulers, settings staging and the tag filter. Spans are
  sequences or arrays, free room is a parameter, and the tag filter is the identity.
- The atomics of the audio source below whole steps. Writes, reads, records and loss notes are atomic steps in any
  order; the split of publishing silence from counting it is treated apart.
- The planar write of the audio source (`writePlanarFloat`) and the sink. The write path modelled is that of libsoundio,
  which returns before it opens a segment when it stores nothing.
- The channel count of the audio source is fixed for a ring. The code takes it with every call and relies on it staying
  the same.
- The sentinel for a missing capture time: it is an option here, so a time that happens to equal the sentinel is not
  modelled. 64-bit positions do not wrap.
- NoiseBlankerBlock.NoiseBlanker.Accept: counters are unbounded, so `lookback + blank`, four times `blank`, the excess
  count and the run position are taken to fit 32 bits.
- NoiseBlankerTracker.TracksTheMean: over a stream with fixed settings from a reset on. A change of settings keeps the
  level (`ConfigureKeeps`). Powers are exact reals.
- NoiseBlankerRuns.StreakBoundOnRuns: with retriggering and a look-back only runs that break the bound are given
  (`LimitIsReached` and `LookbackRunsAreUnbounded` hold there too); how long a run can get then is left out.
- NoiseBlankerBlock.NoiseBlanker.Configured: what a change does not name is given at its accepted value, and the
  exponential is any function with values from 0 to 1. The limits declared for the settings are checked before.
- NoiseBlankerBlock.NoiseBlanker.ForwardTags: what is kept of a payload without its end-of-stream key is a parameter.
- FourStepPasses.Transform: the threads' shares run whole, in any order, and `AnyInterleaving` says of each pass that
  finer interleavings of its writes leave the same record. The short transforms are stated as their sums, and the other
  timed variants of the split are left out.
- CooleyTukey.ComputeFft: the root's cosine and sine are an abstract root of one, and rounding is left out.
- The conversion through `nearbyint`, between integer types and to floating-point types, the widening of a float to a
  double before the conversion, the SIMD overloads and `-ffast-math`.
- PowerMeterBlock.PowerMeter.RoomFor: the window fits 64 bits, as the limit of 2^53 samples ensures; the computation of
  the segment length from rate and time is left out.
- PowerMeterBlock.PowerMeter.ProcessBulk: powers are exact reals. Lanes are sequences in the order they are added up, so
  that states agree bit for bit between different splits. The logarithm and the reading's seqlock are left out.
- SquelchSpec.BurstTagsAlternate: after a ramp change that overshoots, the code reads past its envelope; the trace ends
  there.
- SquelchBlock.SquelchGate.Run: the detector's answers are given as a sequence, and a gain is named by its step of the
  cosine, not computed.
- SquelchPower.OutputsAgree: samples and powers are exact reals, so a product with zero is zero, and the threshold is
  given as a ratio, not in decibels.
- ToneDetector.CtcssDetector.Decide: squared magnitudes are compared, which `SquaresCompare` justifies. Tuning by cosine
  and sine is a parameter. The validation of settings is left out.
- FmEmphasis.PairIsALowpass: exact reals with nothing flushed to zero; the tangent is any function positive in the band.
- BitStuffing.StuffedStream: the random payloads are a function of the frame number. Items are bits.
- File handling, command lines, reports and the other benchmarks.
- HardLimiter, QuadratureDemod, Agc and other small blocks: they would only add easy members.
