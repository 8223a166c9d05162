# PortaPack firmware core: a Dafny model

This project models the parts of the PortaPack firmware in which optimised, concurrent or
incremental code has to agree with something simpler, and proves that it does.

* **Decimators** (`Simd`, `Fir`, `Decimation`, `PairBuffer`, `FsQuarterFir`, `FsQuarterTheorems`,
  `OutputRounding`, `RealTapFir`, `Cic3`, `UnityCic3`, `ChannelDecimator`, `ChannelTheorems`,
  `ChannelFromReset`, `CicTheorems`, `RealFir64`, `RealCic4`, `ComplexFir`, `FirTheorems`, `StreamCuts`): packed lane arithmetic, carried delay lines and in-place buffers against one
  definition of "decimate a stream", `Decimation.Decimate`.
* **The two-core mailbox** (`Mailbox`): a transition system of single shared accesses; safety in
  every interleaving, progress by a measure, and shutdown.
* **The FREQMAN text database** (`Numbers`, `FreqmanLines`, `FreqmanFile`, `FreqmanRoundTrip`,
  `FreqmanExactness`, `FreqmanText`): block reader, line classifier, printer, and the round trip.
* **Bit-level code** (`BitStrings`, `PacketBuilder`, `PacketFromReset`, `Gf2`, `BleLink`, and the code sequences
  `DeBruijn`, `DeBruijnAlgebra`, `DeBruijnModulus`, `DeBruijnPowers`, `DeBruijnCoverage`,
  `DeBruijnStream`).
* **Numerics** (`TruncatedDivision`, `Atan2`, `TouchCalibration`, `TouchManager`, `ClockRecovery`,
  `ClockRecoveryTheorems`, `ClockRecoveryTiming`).
* **Stateful structures** (`RecentEntries`, `BlockDecimator`, `WaveFile`, `WaveReader`).

Integers are unbounded in Dafny; widths, wrap-around, saturation and truncating division are
written out where the program relies on them. Code that updates objects or buffers is a class or a
method over arrays, proved against a specification function; the properties of the specification
functions are the lemmas. `dafny verify dfyconfig.toml` checks the whole project.

Where the code does not do what its comments or a reader would expect, the exact condition is a
theorem: `TranslatesExactlyWhenNegationsExact`, `ExactExactlyWhenExtremesFit`,
`SendCanReturnExactlyWhenImageRuns`, `PlainSplitExactlyWhenLinesFit`, `DeliveredExactlyWhenItFits`,
`HalfTurnExactlyOffOrigin`, `AxisMirrorExactlyWithoutTie`, `RewoundFits`,
`FeedEndsExactlyWhenOneBlock`, `SaveThenLoadExactly`, `EveryCodeAppearsExactlyForSix`,
`FaithfulExactlyWhenFedSingly`, `LayoutOfRecording`, `RecordingReadsBack`.

The comment over the code sequences (firmware/application/de_bruijn.cpp:28-35) calls the table's
polynomials primitive, so that every value would appear for each code length from 3 to 16. That
holds for six of them; for 8 to 12 and 14 to 16 the sequence repeats too early
(`DeBruijnCoverage.ShortLengths`) and some code is never sent.

Parameters stand for what the model does not compute: the touch resistance comparison and the
scaled coordinates of a frame, file contents and whether a file opens, the weight of the timing
error filter (an arbitrary one below 1 in magnitude; the `configure` method of the source assigns
its argument to itself, so the program always uses the member's default).

## Model

| member | source | states |
|---|---|---|
| `Simd.Wrap32Absorbs` | firmware/baseband/dsp_decimate.cpp:29-47 | Wrapping a 32-bit accumulator at every multiply-accumulate step gives the same word as wrapping the exact sum once. |
| `Decimation.DecimateAt` | firmware/baseband/dsp_decimate.cpp:216-249 | The block decimator that every `execute` is proved against has a closed form: output k is the window function of samples D·k to D·k + len − 1 of carried history plus block, and the number of outputs is the number of whole groups. |
| `Decimation.SplitInvariance` | firmware/baseband/dsp_decimate.cpp:206-250 | Block-split invariance for every window function, length and factor: running on one block, carrying the last len − D samples and running on the next gives the outputs, and leaves the state, of one run on the concatenation. |
| `Decimation.IncompleteGroup` | firmware/baseband/dsp_decimate.cpp:216-218 | Samples of an incomplete group at the end of a block change neither the outputs nor the carried history. |
| `Fir.ExactExactlyWhenExtremesFit` | firmware/baseband/dsp_decimate.cpp:306-414 | The 32-bit accumulator of the 16-bit FIRs is exact for every 16-bit input if and only if the two extreme windows (all taps meeting the worst sample of their sign) fit in 32 bits; the 64-tap real FIR obeys the same condition. |
| `FsQuarterFir.MacSumFits` | firmware/baseband/dsp_decimate.cpp:29-47 | For any taps whatever, the sum over the 24 taps of the 8-bit complex FIR stays inside int32, so the accumulator never wraps. |
| `FsQuarterFir.PairStep` | firmware/baseband/dsp_decimate.cpp:29-47 | One packed step (swapped lanes, alternating add and subtract, one negated product pair) adds exactly the two terms of the reference sum for its pair of samples. |
| `FsQuarterFir.UnpackedInput` | firmware/baseband/dsp_decimate.cpp:111-136 | The byte shuffles that unpack two complex<int8_t> samples into lane words store exactly those two samples. |
| `FsQuarterFir.FsQuarterDecimator.constructor` | firmware/baseband/dsp_decimate.cpp:196-204 | A fresh filter holds silence. |
| `FsQuarterFir.FsQuarterDecimator.Configure` | firmware/baseband/dsp_decimate.cpp:181-204 | Stores the taps with the negation pattern of the shift direction, and clears the delay line. |
| `FsQuarterFir.FsQuarterDecimator.AccumulateOldest` | firmware/baseband/dsp_decimate.cpp:29-47 | The part of the sum that is not moved: taps of the oldest samples, delay line unchanged. |
| `FsQuarterFir.FsQuarterDecimator.AccumulateMiddle` | firmware/baseband/dsp_decimate.cpp:68-88 | The part that multiplies and moves the delay line in one pass adds the next taps and shifts the packed words by D samples. |
| `FsQuarterFir.FsQuarterDecimator.AccumulateNewest` | firmware/baseband/dsp_decimate.cpp:111-136 | The part that reads new samples adds the last taps and stores the samples in packed form. |
| `FsQuarterFir.FsQuarterDecimator.Execute` | firmware/baseband/dsp_decimate.cpp:206-304 | For D = 4 and D = 8: the output block is the reference decimation of history plus input, each output is the scaled, rounded and saturated sum for its window, the new history is the last 24 − D samples, and the rest of the destination is untouched. |
| `OutputRounding.FinishedComponents` | firmware/baseband/dsp_decimate.cpp:163-180 | Each 16-bit component comes from the sum of its own component: the sum as a 32-bit register holds it, times the scale, divided by 2^32, rounded to nearest, and the nearer end of the range where that does not fit. |
| `OutputRounding.PlainOutputs` | firmware/baseband/dsp_decimate.cpp:163-249 | So every output of the plain filter, number by number: real parts from real parts, imaginary parts from imaginary parts, one for every D samples. |
| `FsQuarterFir.PackedOutputs` | firmware/baseband/dsp_decimate.cpp:163-249 | And every output of the packed filter, from the sums of its stored taps; `Execute` promises it of the destination. |
| `FsQuarterTheorems.RotateClosedForm` | firmware/baseband/dsp_decimate.cpp:29-47 | The rotation used below has period four: sample n is multiplied by (−j)^n or j^n. |
| `FsQuarterTheorems.QuarterToneGoesToZero` | firmware/baseband/dsp_decimate.cpp:188-192 | Shifting down brings the tone at plus a quarter of the sampling rate to frequency zero; shifting up brings the one at minus a quarter there. |
| `FsQuarterTheorems.MacIsRotatedTap` | firmware/baseband/dsp_decimate.cpp:29-47 | Stored tap, lane swap and sign together multiply the sample by tap times (∓j)^n whenever the negation of the tap is exact. |
| `FsQuarterTheorems.TranslatesExactlyWhenNegationsExact` | firmware/baseband/dsp_decimate.cpp:181-192 | The packed sum equals the plain sum over the rotated samples for every window if and only if no tap at a negated position is −32768 (whose negation wraps in 16 bits). |
| `FsQuarterTheorems.PackedIsTranslateFilterDecimate` | firmware/baseband/dsp_decimate.cpp:206-304 | Over a whole stream, for both shift directions and both factors, the packed filter outputs exactly: translate by a quarter of the sampling rate, filter with the plain taps, keep every D-th, scale, round and saturate. |
| `RealTapFir.PairStep` | firmware/baseband/dsp_decimate.cpp:49-66 | One step of the 16-bit FIR adds two taps to the (wrapping) reference sum. |
| `RealTapFir.RealTapDecimator.Execute` | firmware/baseband/dsp_decimate.cpp:306-414 | Decimation by 2 with 16 taps and by 8 with 32 taps, possibly in place: the output is the reference decimation of the input as it was before the call, with exactly the 32-bit wrap-around of the accumulator, and each output is the rounded, saturated quotient by 2^32 of its own sum and the scale. |
| `Cic3.WideningTaps` | firmware/baseband/dsp_decimate.cpp:416-471 | One round of the packed loop turns four 8-bit samples into two (1,3,3,1) sums, times 32, in swapped and shuffled lanes, without wrapping. |
| `Cic3.Widening.Execute` | firmware/baseband/dsp_decimate.cpp:416-471 | The 8-bit CIC stage is the (1,3,3,1) decimator by two on history plus block, and carries the last two samples. |
| `Cic3.TranslatingTaps` | firmware/baseband/dsp_decimate.cpp:473-555 | One round of the translating loop applies the four rotations of the quarter-rate shift within the lane arithmetic. |
| `Cic3.Translating.Execute` | firmware/baseband/dsp_decimate.cpp:473-555 | The translating CIC stage is the (1,3,3,1) decimator applied to the history and block translated down by a quarter of the sampling rate. |
| `Cic3.TranslatesFromReset` | firmware/baseband/dsp_decimate.cpp:473-555 | From reset that translation is the translation of the plain stream, behind two samples of silence. |
| `Cic3.TranslatingSplit` | firmware/baseband/dsp_decimate.cpp:473-555 | Block-split invariance of the translating stage: the phase of the next block continues although the carried samples are untranslated. |
| `UnityCic3.Pass` | firmware/baseband/dsp_decimate.cpp:568-604 | One round reads four samples, then writes two; every intermediate fits, and the division by 8 truncates toward zero. |
| `UnityCic3.Unity.Execute` | firmware/baseband/dsp_decimate.cpp:557-607 | The unity-gain CIC stage in place: outputs are computed from the input as it was before the call, since no write overtakes an unread sample. |
| `UnityCic3.UnitySplit` | firmware/baseband/dsp_decimate.cpp:557-607 | Block-split invariance of the unity stage. |
| `CicTheorems.WideningIsThreeAdders` | firmware/baseband/dsp_decimate.cpp:416-555 | The widening stages are three adders of neighbouring samples in a row, times 32, for each component. |
| `CicTheorems.UnityIsThreeAdders` | firmware/baseband/dsp_decimate.cpp:557-607 | The unity stage is three adders in a row, divided by eight toward zero. |
| `CicTheorems.UnityKeepsConstants` | firmware/baseband/dsp_decimate.cpp:557-607 | Its gain is one: a constant signal passes unchanged. |
| `CicTheorems.RealIsFourAdders` | firmware/baseband/dsp_decimate.cpp:767-787 | The real stage is four adders in a row, divided by sixteen toward zero. |
| `StreamCuts.AnyCut` | firmware/baseband/dsp_decimate.cpp:206-250 | A whole session, one call per block, gives the outputs of one call on the whole stream, however the stream is cut into blocks of whole groups. |
| `StreamCuts.PackedSession` | firmware/baseband/dsp_decimate.cpp:206-304 | So from reset, in any blocks, both packed quarter-rate filters give the translated, filtered and decimated stream. |
| `StreamCuts.PackedSessionOutputs` | firmware/baseband/dsp_decimate.cpp:163-304 | The same in numbers: output k is the rounded, scaled tap sum over the translated stream from position D·k, for each component on its own. |
| `StreamCuts.ChannelAnyCut` | firmware/baseband/channel_decimator.cpp:24-92 | Likewise for the chain of stages in one work buffer, for either first stage and every factor. |
| `ChannelFromReset.ChainFromReset` | firmware/baseband/channel_decimator.cpp:24-92 | From reset, over any session, for either setting and every factor: translate the whole stream down by a quarter of its rate if asked to, decimate it by the widening stage, and halve it so many times. |
| `ChannelDecimation.CascadeLength` | firmware/baseband/channel_decimator.cpp:53-79 | Every further stage halves the number of samples. |
| `ChannelDecimation.ChannelDecimator.ExecuteStage0` | firmware/baseband/channel_decimator.cpp:82-92 | The first stage, with or without the quarter-rate shift, fills the work buffer with its decimated block. |
| `ChannelDecimation.ChannelDecimator.ExecuteUnityStages` | firmware/baseband/channel_decimator.cpp:53-79 | Zero to four CIC stages run from the work buffer into itself and give what the same stages give on separate buffers. |
| `ChannelDecimation.ChannelDecimator.Execute` | firmware/baseband/channel_decimator.cpp:24-80 | The whole decimator, for every decimation factor: the samples returned and the state of each stage are those of the composition of pure decimators; unused stages are not touched. |
| `ChannelTheorems.CascadeSplit` | firmware/baseband/channel_decimator.cpp:53-79 | Any stage of the cascade run on two blocks in turn gives its outputs on the concatenated block. |
| `ChannelTheorems.ChannelSplit` | firmware/baseband/channel_decimator.cpp:24-92 | Block-split invariance of the whole chain, outputs and final state, for either first stage and every factor. |
| `RealFir64.RealFir64Decimator.SumAndShift` | firmware/baseband/dsp_decimate.cpp:623-640 | The interleaved multiply-and-shift loop computes the 64-tap sum and moves the delay line by two samples, four at a time. |
| `RealFir64.RealFir64Decimator.Execute` | firmware/baseband/dsp_decimate.cpp:615-646 | The 64-tap real FIR, possibly in place, is the reference decimation by two of history plus block. |
| `FirTheorems.Fir64Output` | firmware/baseband/dsp_decimate.cpp:630-642 | Each output is the sum, as a 32-bit register holds it, divided by 65536 toward zero. |
| `RealCic4.RealCic4Decimator.Execute` | firmware/baseband/dsp_decimate.cpp:767-787 | The real CIC4 stage, possibly in place, is the (1,4,6,4,1)/16 decimator by two. |
| `ComplexFir.OneProduct` | firmware/baseband/dsp_decimate.cpp:683-706 | The dual 64-bit multiply-accumulates add one complex product without wrapping, for any tap count up to 2^32 − 1. |
| `ComplexFir.ComplexFirDecimator.ShiftSamples` | firmware/baseband/dsp_decimate.cpp:737-760 | The four-fold unrolled copy with its remainder moves the delay buffer by exactly D samples. |
| `ComplexFir.ComplexFirDecimator.Execute` | firmware/baseband/dsp_decimate.cpp:657-765 | The complex FIR decimator is the reference convolution (of complete groups of eight taps), normalised and saturated, with history carried exactly. |
| `FirTheorems.ComplexOutput` | firmware/baseband/dsp_decimate.cpp:683-735 | Each output in numbers: the four real dot products with the taps backwards, over the complete groups of eight, shifted down by 16 bits, as a 32-bit register holds it, and clamped. |
| `Mailbox.StepKeepsInv` | firmware/baseband/event_m4.cpp:38-109 | Every action of either core, in every order, spurious events included, keeps the protocol invariant. |
| `Mailbox.RunKeepsInv` | firmware/baseband/event_m4.cpp:38-109 | So does every run. |
| `Mailbox.ProcessedExactlyWhatWasSent` | firmware/application/baseband_api.cpp:38-44 | In every run the messages the M4 acts on are those sent, once each, in order; all of them whenever the M0 is outside `send_message` or about to leave it. |
| `Mailbox.DereferencesOnlyLiveMessages` | firmware/baseband/event_m4.cpp:91-109 | The M4 looks behind the pointer only while the sender of that very message is still inside `send_message`. |
| `Mailbox.InterruptFindsThread` | firmware/baseband/event_m4.cpp:38-48 | The interrupt never signals a dispatcher thread that is not registered. |
| `Mailbox.BlockedMeansM4CanStep` | firmware/baseband/event_m4.cpp:60-96 | While an image runs and the M0 spins on a full slot, a wake-up is latched, flagged or being handled: some M4 step is enabled. |
| `Mailbox.EveryStepCounts` | firmware/baseband/event_m4.cpp:60-109 | Each M4 step strictly lowers a measure; an unrelated event raises it by at most four. |
| `Mailbox.SendReturnsAfterBoundedM4Steps` | firmware/application/baseband_api.cpp:38-44 | From any reachable state a send takes at most 18 M4 steps plus four for each unrelated event. |
| `Mailbox.HaltedStaysHalted` | firmware/baseband/baseband.cpp:70-85 | Once halted, the M4 takes no step in any continuation that does not start a new image. |
| `Mailbox.ShutdownReturnsAfterHalt` | firmware/application/baseband_api.cpp:294-307 | When the Shutdown send has returned, the M4 is halted with every message processed, so the queue reset races with nothing. |
| `Mailbox.QueueIsEmptyWithoutImage` | firmware/baseband/baseband.cpp:70-85 | The application queue holds at most the message left on exit, holds it when the M0 resets the queue, and is empty whenever no image runs. |
| `Mailbox.WakeUpsAreFlagged` | firmware/baseband/event_m4.cpp:60-82 | In every run each return of the dispatcher from its wait takes event flags of its own: there are no more wake-ups than flags. |
| `Mailbox.SendWithoutImageNeverReturns` | firmware/application/baseband_api.cpp:38-44 | A message sent while no image runs is never taken: the sender spins for ever. |
| `Mailbox.SendCanReturnExactlyWhenImageRuns` | firmware/application/baseband_api.cpp:281-307 | From any state that keeps the invariant with a message waiting, some schedule lets the send return if and only if an image is running. |
| `Numbers.ToStringDecUintInternal` | firmware/application/string_format.cpp:24-39 | Writing digits backwards into the buffer gives the decimal digits of the number, without leading zeros. |
| `Numbers.ToStringDecUint` | firmware/application/string_format.cpp:73-88 | The text is the digits, filled on the left to the width. |
| `Numbers.DigitsAreDecimal` | firmware/application/string_format.cpp:24-39 | The digits have the value of the number, and no zero stands in front. |
| `Numbers.PaddedIsRightAligned` | firmware/application/string_format.cpp:73-88 | The digits stand on the right, and the fill, if any is needed, makes up exactly the width. |
| `Numbers.SplitNumberReadsBack` | firmware/application/freqman.cpp:310-315 | A number printed as thousands and three zero-filled digits is read back by `strtoll` as itself, whatever non-digit follows. |
| `FreqmanLines.FrequenciesAreSane` | firmware/application/freqman.cpp:128-186 | Through every path of the case number a SINGLE entry has 0 < a ≤ 7.5e9 and a RANGE entry 0 < a < b ≤ 7.5e9. |
| `FreqmanLines.ReadFrequencies` | firmware/application/freqman.cpp:134-186 | The mutable case analysis of f=, a= and b= is the decision table. |
| `FreqmanLines.ReadDescription` | firmware/application/freqman.cpp:188-218 | So is that of d=. |
| `FreqmanLines.ClassifyLine` | firmware/application/freqman.cpp:86-266 | The branch-heavy classifier returns the entry that the decision table gives, for every line, down to the position and the hexadecimal digits of an illegal character. |
| `FreqmanText.KindsExactly` | firmware/application/freqman.cpp:86-242 | Which lines give a SINGLE, a RANGE and a COMMENT entry, each by an if-and-only-if on the text of the line, without the case number. |
| `FreqmanText.SingleEntry` | firmware/application/freqman.cpp:128-218 | What a SINGLE entry holds, for every line that gives one. |
| `FreqmanText.RangeEntry` | firmware/application/freqman.cpp:138-242 | What a RANGE entry holds: both frequencies, the description, and the step; a step of 1 to 9 is appended to the description, any other but 0 is the step error. |
| `FreqmanText.OtherEntries` | firmware/application/freqman.cpp:242-266 | Every other line gives the comment itself, or an error whose description starts with the line number. |
| `FreqmanText.UselessLine` | firmware/application/freqman.cpp:98-101 | An empty line and one that says nothing of use are errors that say so, with the line number counted from one. |
| `FreqmanText.IllegalLine` | firmware/application/freqman.cpp:107-127 | A line with an illegal character names the position of the first one, the character, and its two hexadecimal digits. |
| `FreqmanText.PlainLineFails` | firmware/application/freqman.cpp:128-266 | Any other failing line says what fails first: the frequency that is missing, out of band or out of order, or the description that is missing or too long. |
| `FreqmanText.BlanksAreSkipped` | firmware/application/freqman.cpp:136 | A signed decimal number behind any blanks is read as itself, clamped to 64 bits. |
| `FreqmanText.SteppedRange` | firmware/application/freqman.cpp:219-242 | As text: the line of a range with a description and any step number, with either line end, classifies as that range with that step, or as the step error. |
| `FreqmanText.FullFile` | firmware/application/freqman.cpp:268-280 | A file of 99 lines or more gives the entries of its first 99 and one that says so. |
| `FreqmanFile.ReadBlock` | firmware/application/freqman.cpp:62-75 | A block is the next 256 characters at most, zero-terminated, with zero characters replaced. |
| `FreqmanFile.LoadLinesOfBlock` | firmware/application/freqman.cpp:82-284 | One block contributes the entries of its complete lines and stops at the start of its last incomplete one. |
| `FreqmanFile.DropBlock` | firmware/application/freqman.cpp:285-289 | A full block without a newline can be dropped without changing what is kept of the lines. |
| `FreqmanFile.Load` | firmware/application/freqman.cpp:38-291 | Wherever the 256-byte boundaries fall, the database is that of the plain newline-terminated lines, in order, capped at 99 and a warning; of a line too long for a block only the part behind its whole blocks is seen. The loop terminates. |
| `FreqmanRoundTrip.PlainSplitExactlyWhenLinesFit` | firmware/application/freqman.cpp:60-95 | The loader sees the plain lines of the file, for the first 99, if and only if each of them with its newline is at most 256 characters long. |
| `FreqmanRoundTrip.Save` | firmware/application/freqman.cpp:293-327 | The file is one line per entry, each ended by carriage return and newline. |
| `FreqmanRoundTrip.SingleLine` | firmware/application/freqman.cpp:310-312 | A saved SINGLE line classifies as the entry, its description lengthened by the carriage return. |
| `FreqmanRoundTrip.RangeLine` | firmware/application/freqman.cpp:313-317 | A saved RANGE line likewise. |
| `FreqmanRoundTrip.SaveThenLoad` | firmware/application/freqman.cpp:38-327 | Saving fewer than 99 such entries and loading the file gives back the same kinds, frequencies and descriptions, in order, up to that carriage return. |
| `FreqmanExactness.LineSurvivesExactly` | firmware/application/freqman.cpp:86-317 | For every entry whatever: its saved line classifies as the entry (with the carriage return, and the default step) if and only if frequencies and description satisfy `Survives`: in band and in order, description not empty and shorter than 29, of acceptable characters, without comma, comment sign, or, for a range, "f=" or a step other than zero. |
| `FreqmanExactness.SaveThenLoadExactly` | firmware/application/freqman.cpp:38-327 | For every database whatever: loading the saved file gives it back entry by entry if and only if it has fewer than 99 entries and all of them survive; neither line breaks in descriptions, replaced zeros nor dropped blocks can make up for one that does not. |
| `PacketFraming.PacketBuilder.Execute` | firmware/baseband/packet_builder.hpp:74-137 | One received symbol takes the builder through exactly the specified step: history, unstuffing, end test on the grown packet, truncation. |
| `PacketFraming.ExactMatchers` | firmware/baseband/proc_ais.hpp:72-79 | The AIS unstuff and end patterns hold exactly after five ones and a zero, and after the flag. |
| `PacketFraming.PayloadCollected` | firmware/baseband/packet_builder.hpp:86-111 | After an exact opening flag the stuffed form of any payload that fits collects exactly the payload and delivers nothing. |
| `PacketFraming.FrameDelivered` | firmware/baseband/packet_builder.hpp:86-111 | The closing flag then delivers exactly one packet: the payload and the first seven bits of the flag. |
| `PacketFraming.DeliveredExactlyWhenItFits` | firmware/baseband/packet_builder.hpp:100-103 | That packet is delivered if and only if payload length + 7 is below the capacity; a payload merely shorter than the capacity may be lost. |
| `PacketFromReset.OpensExactlyOnPreamble` | firmware/baseband/packet_builder.hpp:79-84 | Outside a packet a symbol opens one if and only if the last sixteen bits differ from 0101010101111110 in at most one place. |
| `PacketFromReset.PreambleReachesFlag` | firmware/baseband/packet_builder.hpp:79-84 | From reset the sixteen bits of the preamble open a packet with the last one and no sooner, just behind an exact flag. |
| `PacketFromReset.TransmissionDelivered` | firmware/baseband/packet_builder.hpp:74-120 | Preamble, stuffed payload and flag from reset deliver exactly one packet, the payload and seven flag bits, if and only if it fits. |
| `PacketFromReset.FixedLengthDelivered` | firmware/baseband/packet_builder.hpp:39-45 | With a fixed packet length and nothing to unstuff, exactly the bits of that length are delivered, with the last of them. |
| `Gf2.DivisionIdentity` | firmware/baseband/proc_btlerx.cpp:237-256 | The quotient and remainder of division by the 24-bit polynomial put the dividend together again. |
| `Gf2.RemainderIsUnique` | firmware/baseband/proc_btlerx.cpp:237-256 | No other quotient and remainder do. |
| `Gf2.RegisterHoldsRemainder` | firmware/baseband/proc_btlerx.cpp:237-256 | A bitwise feedback register that starts at init and takes in bits d holds the remainder of init·x^n + d(x)·x^24, for every n (Bluetooth Core Specification, Vol 6 Part B, section 3.1.1). |
| `BleLink.ReverseByteReverses` | firmware/baseband/proc_btlerx.cpp:129 | The multiplication trick reverses the bits of every byte. |
| `BleLink.SliceByte` | firmware/baseband/proc_btlerx.cpp:190-200 | A byte is eight ring-buffer samples against the threshold, first sample highest. |
| `BleLink.Dewhiten` | firmware/baseband/proc_btlerx.cpp:204-220 | The in-place loop is the exclusive or with a keystream that depends on the position only. |
| `BleLink.WhiteningIsAnInvolution` | firmware/baseband/proc_btlerx.cpp:204-220 | Dewhitening twice changes nothing. |
| `BleLink.WhitenedPrefix` | firmware/baseband/proc_btlerx.cpp:154-170 | Dewhitening a prefix gives the prefix of the dewhitened bytes. |
| `BleLink.KeystreamIsTheSpecifiedOne` | firmware/baseband/proc_btlerx.cpp:154-167 | The byte-wide register, for every channel index, puts out the keystream of the 7-bit register of the Bluetooth Core Specification, Vol 6 Part B, section 3.2. |
| `BleLink.KeyIsTheSpecifiedKeystream` | firmware/baseband/proc_btlerx.cpp:154-167 | Bit k of the key byte that `Dewhiten` uses at position i is output 8·i + k of that register. |
| `BleLink.ReceivePacket` | firmware/baseband/proc_btlerx.cpp:136-220 | The separately sliced and dewhitened header is the first two bytes of the dewhitened packet, whose length it decides; and what a transmitter whitened for that channel and sent comes out as it was. |
| `BleLink.LengthOfBits` | firmware/baseband/proc_btlerx.cpp:177-181 | The length is the number in the first six bits of the second header byte, lowest bit first. |
| `BleLink.ReceivedIsSent` | firmware/baseband/proc_btlerx.cpp:190-220 | Slicing and dewhitening undo whitening and sending, for every packet, channel and threshold. |
| `BleLink.CrcShiftIsDivisionStep` | firmware/baseband/proc_btlerx.cpp:243-253 | The three-byte shift with its two feedback constants is one step of the division register. |
| `BleLink.Crc24` | firmware/baseband/proc_btlerx.cpp:224-258 | For every packet body the three bytes hold the remainder of init·x^n + d(x)·x^24. |
| `DeBruijn.StepIsAPermutation` | firmware/application/de_bruijn.cpp:92-101 | For any taps that include the oldest bit, the step on n-bit windows has an inverse on both sides. |
| `DeBruijn.ZeroIsAlone` | firmware/application/de_bruijn.cpp:92-101 | The zero window is fixed and is reached from no other. |
| `DeBruijn.PurelyPeriodic` | firmware/application/de_bruijn.cpp:88-104 | From any other window the sequence is purely periodic with period at most 2^n − 1 and no window repeats within a period. |
| `DeBruijn.EveryPolynomialFeedsBack` | firmware/application/de_bruijn.hpp:29-44 | Every polynomial of the table, code lengths 3 to 16, has the tap of the oldest bit. |
| `DeBruijn.SequenceFromSeed` | firmware/application/de_bruijn.cpp:75-104 | From the seed 1, for every code length: never zero, purely periodic, no repeat within a period. |
| `DeBruijn.WindowOfRegister` | firmware/application/de_bruijn.cpp:99-100 | The low n bits of the 32-bit register are the window after the same number of steps. |
| `DeBruijn.RegistersCompose` | firmware/application/de_bruijn.cpp:88-104 | `compute(a)` then `compute(b)` leaves the register of `compute(a + b)`. |
| `DeBruijn.Sequence.Init` | firmware/application/de_bruijn.cpp:75-86 | Code lengths outside 3 to 16 become 3; the register starts at 1; the returned length is 2^n + n − 1. |
| `DeBruijn.Sequence.Compute` | firmware/application/de_bruijn.cpp:88-104 | The nested loops leave exactly the register after that many steps. |
| `DeBruijnModulus.ModulusAnnihilates` | firmware/application/de_bruijn.hpp:29-44 | For every table entry, the polynomial that the register divides by (the tap mask, shifted and completed) sends every window to zero: the algebra behind all periods below. |
| `DeBruijnAlgebra.Doubled` | firmware/application/de_bruijn.cpp:88-104 | If t steps act on every window as one polynomial does, 2·t steps act as its square modulo that polynomial, for certificates checked bit by bit. |
| `DeBruijnCoverage.FullLengths` | firmware/application/de_bruijn.hpp:29-44 | For code lengths 3 to 7 and 13 the seed does not return before step 2^n − 1. |
| `DeBruijnCoverage.ShortLengths` | firmware/application/de_bruijn.hpp:29-44 | For the other eight it returns early: after 51, 254, 105, 89, 3937, 5461, 27559 and 10668 steps for lengths 8 to 12 and 14 to 16. |
| `DeBruijnCoverage.MissingCode` | firmware/application/de_bruijn.cpp:75-104 | For those eight lengths some code other than zero is never shown, after any number of steps. |
| `DeBruijnCoverage.EveryCodeAppearsExactlyForSix` | firmware/application/de_bruijn.cpp:28-104 | For 3 ≤ n ≤ 16, every code but zero is shown within 2^n − 1 steps of the seed if and only if n is 3, 4, 5, 6, 7 or 13. |
| `DeBruijnStream.StreamShowsEveryCodeExactlyForSix` | firmware/application/de_bruijn.cpp:35-72 | The bit stream of the announced length 2^n + n − 1 (a zero, the seed and the pushed bits) shows each of the 2^n codes, zero included, if and only if n is one of those six. |
| `DeBruijnStream.NoCodeTwice` | firmware/application/de_bruijn.cpp:35-72 | For those six lengths no code stands in the stream at two positions. |
| `TruncatedDivision.QuotientOfMagnitudes` | firmware/baseband/fxpt_atan2.cpp:94-96 | C++ division, for all signs, is the division of the magnitudes with the sign of the exact quotient. |
| `TruncatedDivision.ExactQuotient` | firmware/application/touch.cpp:72-73 | A multiple of the divisor is divided without loss, for all signs. |
| `Atan2.RoundShift` | firmware/baseband/fxpt_atan2.cpp:73-82 | The Q15 product is the nearest value; a tie goes to the lower value (not to the even one, as the name of the rounding mode suggests). |
| `Atan2.QuotientsAreInRange` | firmware/baseband/fxpt_atan2.cpp:131-143 | For every pair of inputs there is no division by zero and no Q15 quotient outside 16 bits. |
| `Atan2.WithinOneUnitOfTheQuadratic` | firmware/baseband/fxpt_atan2.cpp:134-136 | Before rotation the angle is within one unit of the exact quadratic (k2 − k1·abs(r))·r of the truncated ratio r. |
| `Atan2.NearTheExactQuadratic` | firmware/baseband/fxpt_atan2.cpp:131-146 | And within one and a half units of that quadratic of the untruncated ratio. |
| `Atan2.AngleInItsOctant` | firmware/baseband/fxpt_atan2.cpp:119-152 | The angle lies in the closed eighth of the turn that holds the vector, for all eight octants, exactly. |
| `Atan2.HalfTurnExactlyOffOrigin` | firmware/baseband/fxpt_atan2.cpp:119-152 | Negating both inputs (when representable) adds exactly half a turn modulo 65536, if and only if the vector is not zero. |
| `Atan2.DiagonalMirrorExactlyOffOrigin` | firmware/baseband/fxpt_atan2.cpp:119-152 | Exchanging the inputs mirrors the angle exactly in an eighth of a turn, if and only if the vector is not zero. |
| `Atan2.AxisMirrorExactlyWithoutTie` | firmware/baseband/fxpt_atan2.cpp:119-152 | Negating y negates the angle if and only if the last product is no tie; on a tie it is off by exactly one unit, in the stated direction. |
| `TouchCalibration.RowIsTheAffineMap` | firmware/application/touch.hpp:129-140 | Any affine map that sends the three digitizer points to the three screen coordinates agrees with the calibration row at every point: before truncation `translate` is that map. |
| `TouchCalibration.CalibrationPointsAreExact` | firmware/application/touch.cpp:68-77 | For three non-collinear digitizer points, each on-screen calibration point is hit exactly. |
| `TouchCalibration.Translate` | firmware/application/touch.cpp:68-77 | The result is on the 240x320 screen, whatever the point and the matrix. |
| `TouchCalibration.ConstructorFits` | firmware/application/touch.hpp:132-138 | For coordinates 0..1023 and screen coordinates below 320 no value of the constructor leaves int32. |
| `TouchCalibration.TranslateFits` | firmware/application/touch.cpp:72-73 | Nor does any value of `translate`, by the rewriting of a·x + b·y + c as a sum of screen coordinates times triangle areas. |
| `TouchManager.Filter.Feed` | firmware/application/touch.hpp:168-174 | The running sum and the circular history stay the sum and the content of the newest three samples. |
| `TouchManager.Filter.IsStable` | firmware/application/touch.hpp:180-190 | Stable means: three samples since the reset, and no two of the newest three differ by the bound or more. |
| `TouchManager.Manager.Feed` | firmware/application/touch.cpp:87-132 | One frame updates filters and state and fires exactly the event of the specified step. |
| `TouchManager.EventsAreStrokes` | firmware/application/touch.cpp:109-131 | The events of any run are whole strokes (start, any moves, end), with at most one left open, exactly when a touch is detected. |
| `TouchManager.WhatFires` | firmware/application/touch.cpp:87-132 | What one frame fires after any frames: a start exactly when it is pressed and the newest three pressed frames of this touch are within eight of each other in x and in y; during a stroke a move when pressed and an end when not; starts and moves with the average of those three. |
| `TouchManager.FiltersHoldThisTouch` | firmware/application/touch.cpp:92-107 | After any run the filters hold exactly the pressed frames since the last lift, at least three while a stroke is open. |
| `TouchManager.ReportedPointIsOfThisTouch` | firmware/application/touch.hpp:220-223 | Every start and move reports the average of three frames of this very touch; no earlier touch and no reset zero enters it. |
| `TouchManager.LiftReportsTheOrigin` | firmware/application/touch.cpp:104-126 | The end event of a lifted touch always reports the point of coordinates (0, 0), because the filters are reset first. |
| `ClockRecovery.DueFalls` | firmware/baseband/linear_resampler.hpp:44-48 | With a positive increment and an adjustment below one in magnitude, the number of outputs due before the next input strictly falls: the inner loop terminates. |
| `ClockRecovery.GardnerTimingErrorDetector.Feed` | firmware/baseband/clock_recovery.hpp:41-60 | Every second output is a symbol with lateness (newest − third) · middle. |
| `ClockRecovery.Recovery.Process` | firmware/baseband/clock_recovery.hpp:146-180 | One input sample, with its loop and nested callbacks, gives exactly the specified outputs, symbols and state. |
| `ClockRecoveryTheorems.TimeIsConserved` | firmware/baseband/linear_resampler.hpp:38-54 | After any run: phase = initial phase + increment · (outputs + sum of adjustments) − inputs. |
| `ClockRecoveryTheorems.OutputsLieBetweenInputs` | firmware/baseband/linear_resampler.hpp:38-50 | Between inputs the phase stays in [0, increment·(1 + abs(w))), and every output lies between the two inputs around it. |
| `ClockRecoveryTheorems.SymbolsAreEverySecondOutput` | firmware/baseband/clock_recovery.hpp:53-59 | Across all inputs the symbols are exactly every second output, and only they bring an adjustment. |
| `ClockRecoveryTheorems.SymbolRate` | firmware/baseband/clock_recovery.hpp:41-60 | The number of symbols is bounded from both sides by the number of inputs: a symbol takes two output periods, give or take abs(w) of one. |
| `ClockRecoveryTiming.SymbolsAreTimed` | firmware/baseband/clock_recovery.hpp:53-107 | In any run a symbol lengthens the next step by w output periods if (newest − third) · middle is negative, and shortens it otherwise, for its own output and the two before it. |
| `ClockRecoveryTiming.CorrectsTowardsCrossing` | firmware/baseband/clock_recovery.hpp:53-107 | On a straight signal: if the middle output lies after the zero crossing the next step is shorter by w output periods, if it lies before it is longer. |
| `ClockRecoveryTiming.StraightSignalIsReproduced` | firmware/baseband/linear_resampler.hpp:38-54 | At any rate and under any corrections, every output of a straight signal is the value of the line at the time of the output. |
| `RecentEntries.Find` | firmware/application/recent_entries.hpp:39-45 | Finds the first entry with the key, or the end. |
| `RecentEntries.RecentEntryList.TruncateEntries` | firmware/application/recent_entries.hpp:47-52 | Keeps the newest entries up to the maximum. |
| `RecentEntries.RecentEntryList.OnPacket` | firmware/application/recent_entries.hpp:54-67 | Moves the entry of the key to the front, unchanged, or puts a new one there and truncates to 64; so the keys stay those of all packets so far. |
| `RecentEntries.KnownEntryKeepsItsData` | firmware/application/recent_entries.hpp:54-60 | A known station comes to the front with its own entry, and no entry is gained, lost or changed. |
| `RecentEntries.NewEntryComesFirst` | firmware/application/recent_entries.hpp:61-64 | A new one comes before all others, of which the last is lost if there were 64. |
| `RecentEntries.MostRecentIsByLastHeard` | firmware/application/recent_entries.hpp:54-67 | The reference order is what it should be: the distinct keys of the stream, each once, by last occurrence. |
| `RecentEntries.ListIsLeastRecentlyUsedCache` | firmware/application/recent_entries.hpp:47-67 | After any packets the keys of the list are the first 64 of that order, without duplicates. |
| `RecentEntries.RecentEntryList.HoldsTheLastHeard` | firmware/application/recent_entries.hpp:47-67 | After any sequence of packets (and updates of the front entry) the keys of the list object are the first 64 of the stations heard, each once, the last one first. |
| `RecentEntries.RecentEntryList.RangeAround` | firmware/application/recent_entries.hpp:69-92 | The window is contiguous, at most `count` long, starts count/2 before the item or at the front, is full or reaches the end, and holds the item whenever it is in the list and count ≥ 1. |
| `BlockDecimation.RewoundFits` | firmware/baseband/block_decimator.hpp:68-85 | After the rewind that `reset_state` causes, the rest of the same feed cannot complete a block again if and only if the feed has at most N · factor samples. |
| `BlockDecimation.BlockDecimator.TakeSample` | firmware/baseband/block_decimator.hpp:71-81 | The body of the loop stores one sample and takes the two counters through `WalkStep`. |
| `BlockDecimation.FeedEndsExactlyWhenOneBlock` | firmware/baseband/block_decimator.hpp:68-85 | From any counters with the offset below the factor, some number of passes brings the loop to the end of the feed if and only if the feed has at most N · factor samples; on a larger one no number does. |
| `BlockDecimation.OffsetStaysBelowFactor` | firmware/baseband/block_decimator.hpp:81-84 | The offset that one feed leaves for the next is below the factor. |
| `BlockDecimation.EveryAt` | firmware/baseband/block_decimator.hpp:71-81 | The walk takes the samples at offset, offset + factor, offset + 2·factor and so on. |
| `BlockDecimation.ExitPosition` | firmware/baseband/block_decimator.hpp:81-84 | And stops at the first such position past the feed. |
| `BlockDecimation.BlockDecimator.Feed` | firmware/baseband/block_decimator.hpp:68-85 | One feed of at most that size, for every factor: every factor-th sample goes into the block, and completing one restarts the walk at position `factor` of the same feed. |
| `BlockDecimation.FeedWithFactorOne` | firmware/baseband/audio_output.hpp:61 | With factor 1 a completed block is followed by the feed from its second sample on. |
| `BlockDecimation.BlocksOfStream` | firmware/baseband/block_decimator.hpp:68-98 | Factor 1, feeds of m dividing N: block 0 is the stream from 0, block i from i·N − m + 1, for any number of feeds, and the unfinished block is what follows. |
| `BlockDecimation.ConsecutiveFromSecondBlock` | firmware/baseband/block_decimator.hpp:68-98 | From the second block on the blocks are consecutive pieces of the stream, gap-free and repeat-free. |
| `BlockDecimation.SecondBlockRepeats` | firmware/baseband/block_decimator.hpp:75-79 | The second block begins with the last m − 1 samples of the first. |
| `BlockDecimation.FaithfulExactlyWhenFedSingly` | firmware/baseband/block_decimator.hpp:68-98 | The blocks are the stream itself from its beginning if and only if samples are fed one by one. |
| `WaveFile.WAVFileWriter.UpdateHeader` | firmware/application/io_wave.cpp:148-169 | Rewrites the first 44 bytes and returns to the old position. |
| `WaveFile.WAVFileWriter.Create` | firmware/application/io_wave.cpp:133-146 | Leaves a provisional header and the position at the start of the file. |
| `WaveFile.WAVFileWriter.Close` | firmware/application/io_wave.hpp:170-173 | Appends the tags and rewrites the header. |
| `WaveFile.Record` | firmware/application/io_wave.cpp:133-182 | However the data is cut into writes, the closed file is: header, the data and tags from byte 44 on; the first 44 bytes of data are lost. |
| `WaveFile.HeaderFields` | firmware/application/io_wave.hpp:63-80 | The fields of the header stand at their offsets and read back. |
| `WaveFile.RecordingIsMonoPcm` | firmware/application/io_wave.hpp:30-75 | A recording is uncompressed, with one channel; block size and byte rate are those of its sample size and sampling rate. |
| `WaveFile.TagsFields` | firmware/application/io_wave.hpp:87-107 | The tags behind the data carry their size, the artist and the title with its zeros. |
| `WaveFile.LayoutOfRecording` | firmware/application/io_wave.cpp:148-182 | The RIFF size is always file length − 8; the data chunk of total − 44 bytes lies inside the file, with the tags directly after it, if and only if at least 44 bytes were written. |
| `WaveReader.ScanStep` | firmware/application/io_wave.cpp:52-67 | The restart rule of the tag scanner remembers exactly the longest incomplete start of the tag. |
| `WaveReader.Scan` | firmware/application/io_wave.cpp:52-73 | The scanner finds the first INAM that ends within 257 bytes if there is one, and otherwise nothing; past the end of the file it finds nothing either. |
| `WaveReader.WAVFileReader.Open` | firmware/application/io_wave.cpp:25-86 | Opening a file sets every field from the header that was read, finds the title as specified, and rewinds to the data; the path already open is only rewound. |
| `WaveReader.RecordingReadsBack` | firmware/application/io_wave.cpp:39-78 | Opening a finished recording of at least 44 bytes gives back its sampling rate, its data size and data, and its title if and only if that is shorter than 32. |

## Left out

- Hardware access, DMA, clocks, codecs, user interface, FatFs and thread scheduling: not modelled. A file is its bytes and a position, an event a latched flag.
- Write, seek and read errors of the SD card: operations on an open file succeed; only a failing open or create is modelled.
- Unrolled loops: written as loops over the same groups, except where the unrolling decides the result (the groups of eight taps and the four-fold copy of the complex FIR, the four-fold copy of the 64-tap FIR).
- Source arrays of the 8-bit decimators are sequences, because a buffer of bytes and a buffer of words cannot be the same Dafny array; in-place use of the 16-bit stages is modelled with one array.
- The stages cic_1 to cic_4 of the channel decimator are held in a sequence and run by a loop that stops at the selected factor.
- Sampling-rate and timestamp fields of buffers and packets: passed along unchanged by the source, no part of any result here.
- Mailbox: what a processor does with a message, the worker threads it owns and the contents of the application queue; the queue is a count.
- Mailbox: `run_image` while an image runs, which panics in the source, is not an enabled action.
- FREQMAN: the source puts the terminator of the two hexadecimal digits of an illegal character behind the end of a two-character array; the model takes the text as the two digits.
- FREQMAN: lines longer than a block have no plain meaning; `Load` states what is kept of them, `PlainSplitExactlyWhenLinesFit` when nothing is lost.
- FREQMAN: an entry whose kind is an error or a comment is saved as an empty line by the source (`Save` follows it), so such an entry never comes back.
- BLE: demodulation, threshold search and the access address comparison; whether the address matched is a parameter.
- De Bruijn: the 32-bit register is a sequence of its 32 bits.
- De Bruijn: the encoder view that sends the register's low bits in packets of one code length each.
- Atan2: the distance between the quadratic and the true arctangent, which is not a property of the code.
- Clock recovery: real numbers stand for floating point; the linear error filter, which nothing instantiates, is not modelled.
- Touch: `calculate_metrics` is floating-point arithmetic on raw samples; its results are the fields of a frame.
- FREQMAN: listing and creating the files.
- Recent entries: painting, columns and key handling of the table widget.
- BlockDecimation.BlockDecimator.Feed: requires a feed of at most N · factor samples; on a larger one the source's loop never ends, which `FeedEndsExactlyWhenOneBlock` shows on its counters.
- WaveFile.WAVFileWriter.Close: requires a title shorter than 64 characters, the size of the field the source copies it into without a check.
- Wave files: seeking to a sample and the duration of a file, one-line arithmetic.
- Wave reader: reading a title of 32 or more characters, or one cut off by the end of the file, reads memory nobody wrote; the result is then `Undefined`.
