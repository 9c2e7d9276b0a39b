# A verified model of the Gears runtime's frame path

This Dafny project models the parts of the runtime that hold state, protocols and arithmetic
between the guest's draw stream and the host's graphics API, and proves what they are for.

* **Frame handoff** (`FrameQueue.dfy`, `FrameQueueProtocol.dfy`, `FrameQueueTrace.dfy`). The
  one-slot, latest-wins queue as a class, and every interleaving of its callers as a labelled
  transition system with explicit sleepers, `notify_one`, `notify_all` and spurious wakeups. No
  wakeup is lost, every accepted frame is in exactly one place, the identities the consumer takes
  can be published, and every answer follows from the answers before it: what is taken is the last
  accepted frame itself, inputs and all.
* **EDRAM** (`EdramFormats.dfy`, `FormatTables.dfy`, `HostContainers.dfy`, `BlendEquation.dfy`,
  `FrameRecording.dfy`, `RecordingCounts.dfy`, `PassDiscipline.dfy`, `CopyDiscipline.dfy`,
  `EdramConsole.dfy`, `EdramRefinement.dfy`, `EdramFrames.dfy`, `OrdinaryFrames.dfy`,
  `EdramLimits.dfy`, `EdramRuns.dfy`, `EdramPartialWrites.dfy`, `EdramFailures.dfy`,
  `EdramExample.dfy`). The console has one memory of words, and colour, depth and clears land at
  whatever base they name. The host keeps a colour image of values with a format label, in a
  container that rounds and clamps, and a depth image, for each base. A trust is worked out from the
  commands, the console's words and the recorder's own labels, counters and refusals, without
  looking at the host's images. Over every single-sample list, a trusted image packs to the
  console's words, or holds exactly the values they read as, and so does every copy of a trusted
  source (`TrustedMatchesConsole`). Over ordinary frames, which may blend, mask, leave pixels alone
  and draw colours that the words cannot hold, everything drawn is trusted until a copy clears it,
  and again once a draw replaces it (`FrameMatchesConsole`). Over runs of frames against a memory
  that is never reset, a frame's clearing copies are what lets the next one start from zero
  (`RunMatchesConsole`, `OrdinaryRunMatchesConsole`). `ShadingRightIff` says when any draw on bases
  of its own leaves its surface right, and the other lemmas of `EdramLimits.dfy` when a clear, an
  alias, a wipe, a conversion or a dropped draw does, each by what is there before the command.
* **Frame arena and index reuse** (`FrameArena.dfy`, `GuestIndices.dfy`). A bump allocator with
  fallback buffers under a cache that hands out earlier allocations. Whatever a frame asks for, each
  buffer handed out holds at the end exactly the reference conversion of its draw.
* **Frame captures** (`CaptureFormat.dfy`, `CaptureTheorems.dfy`, `CaptureFiles.dfy`). The file as
  bytes in all four layouts, a plain parser, and the reader and writer with their sticky flag proved
  equal to them. Round trip, and no proper prefix is accepted.
* **Render targets** (`SurfaceTargets.dfy`, `ResolveRouting.dfy`, `ResolvePlanning.dfy`). Promotion
  of persistent surfaces and the lookup that lasts one frame; routing of resolve destinations to rows
  of textures; the two planning passes over a frame's draws.
* **Guest memory upload** (`GuestUpload.dfy`). Page rounding, sorting, merging and copying.
* **Smaller cores**. `AudioPace.dfy` (pacing of the audio pump), `DirectoryInfo.dfy` (directory
  listings), `FloatConstants.dfy` (packing of shader constants) and `ResolveAddressing.dfy` (which
  samples a resolve reads and where it writes).

`Wrappers.dfy` holds the option type. Code that changes state in the runtime is a class or a method
on arrays here, proved against a function of the old state; the theorems are about those functions and
about runs of them. Every lemma carries `{:induction false}`: each proof says its own induction.

Where the code and its comments differ, the model follows the code. `runtime/audio_pace.h:66-67`
speaks of the slot at or after now, but the code re-bases to the last slot at or before now
(`NotInThePastIff` says exactly when the result is not in the past). `runtime/gpu_draw_reinterpret.cpp:21`
calls the reinterpretation pass off by default; `runtime/gpu_draw.cpp:686` has it on, and so has the
model.

Some properties one might expect are false of the code. For each the model has an input that fails,
or a family of them, and says exactly when the property holds.

* A recorded surface is the console's. A copy that clears colour does not clear the host's image
  (`ClearedFrameFails`, `ClearingCopyExactIff`), and such copies with the value zero are exactly
  what makes a frame start from zero (`DeriveClearColor`). A copy in another format converts inside
  an image that may be too narrow for it (`NarrowCopyFails`; `HoldsIff`, `ConversionLosslessIff`,
  `ConvertedCopyExactIff`). A depth buffer that starts at another surface's base does not reach that
  surface (`CrossDepthFails`, `CrossDepthExactIff`). The alias pass overwrites colour by the host's
  depth image whoever wrote the console's words last (`AliasFails`; `AliasExactIff`,
  `AliasOfRightDepthExactIff`, `UnaliasedExactIff`). A surface's first pass wipes a depth buffer in
  use (`WipedDepthFails`, `FirstPassWipesDepthIff`). A draw that misses pixels or channels and reads
  nothing only relabels (`RelabelFails`; `PartialWriteRightIff`, `PartialWriteExactIff`). A blend
  reads what the console has rounded and the host has not (`RoundedReadFails`;
  `RoundedReadRightIff`, `UnrepresentableExactIff`). A refused conversion leaves the draw in the old
  format (`RefusedConversionFails`; `RefusedConversionRightIff`, `RefusedCopyRightIff`).
* A draw that is not relabelled reads its destination. The test for an identity blend takes one
  register; `KeepsSourceIff` lists exactly the others whose blend is the draw's own colour over
  every destination, for which a conversion is made that changes nothing.
* An overflow grows the arena. It need not (`OverflowNeedNotGrow`). For one request at a fixed arena
  the condition is `OverflowExceedsIff`, over all arenas it is `OverflowGrowsIff`, and for whole
  frames `OverflowGrowsFrame` and `FrameGrowsIff`.
* A routed resolve destination keeps its texture (`LowerTextureTakesOver`; `RouteMovesIff`,
  `RouteMovesOverRunIff`).
* A surface never forgets a format (`FormatIsForgotten`; `LosesIff`, `FormatsKeptIff`).

## Model

| member | source | states |
|---|---|---|
| FrameQueues.FrameQueue.Submit | runtime/frame_queue.cpp:8-29 | refuses a closed queue or an identity not above the last accepted one and changes nothing; otherwise replaces the waiting frame and reports the one it displaced |
| FrameQueues.FrameQueue.PollTake | runtime/frame_queue.cpp:31-47 | one passage of the wait: hands over the waiting frame when nothing is being rendered, reports the drained closed queue, or goes on waiting |
| FrameQueues.FrameQueue.Complete | runtime/frame_queue.cpp:49-58 | ends only the active frame; any other identity is refused and leaves the queue as it was |
| FrameQueues.FrameQueue.Close | runtime/frame_queue.cpp:60-65 | refuses what comes later and keeps the waiting frame |
| FrameQueues.FrameQueue.PollIdle | runtime/frame_queue.cpp:67-71 | idle means neither a waiting nor an active frame |
| FrameQueueProtocol.StepKeepsSleepersRight | runtime/frame_queue.cpp:8-71 | no step of any thread leaves someone asleep whose predicate is true |
| FrameQueueProtocol.NoLostWakeup | runtime/frame_queue.cpp:8-71 | in every interleaving, a sleeping consumer has nothing to take, a sleeping idle caller has a frame to wait for, and a submission that gives a sleeping consumer a frame wakes that consumer |
| FrameQueueProtocol.ReadyConsumerReturns | runtime/frame_queue.cpp:31-47 | once there is something to take nothing but the consumer takes it away, and its next check returns |
| FrameQueueProtocol.FramesAreConserved | runtime/frame_queue.cpp:8-65 | each accepted identity is in exactly one of waiting, active, completed and displaced; a displacement is reported once, by the next accepted submission; identities are taken in increasing order |
| FrameQueueProtocol.DrainedMeansFinished | runtime/frame_queue.h:57-59 | when the wait returns nothing, the queue is closed and the last accepted frame has been completed |
| FrameQueueProtocol.CompletionIsExact | runtime/frame_queue.h:61-63 | the active frame was taken and not completed; completing a frame again changes nothing |
| FrameQueueProtocol.TakenFramesPublish | runtime/frame_contract.cpp:6-17 | publishing the taken frames in order always advances if and only if the first of them is not zero |
| FrameQueueTrace.AnswersFollow | runtime/frame_queue.cpp:8-71 | over every run each answer is the one the earlier answers call for: why a submission is refused, which frame it displaced and that frame's sequence, what is taken, when the queue is drained or idle, what a completion returns |
| FrameQueueTrace.TakenIsLatestAccepted | runtime/frame_queue.cpp:20-46 | every frame taken is an accepted one, identity, generation and inputs, and nothing was accepted or taken in between |
| FrameContracts.FrameContract.Publish | runtime/frame_contract.cpp:6-17 | zero, repeated and older identities are refused with their own reasons, and only a newer one is recorded |
| FrameContracts.FrameContract.Present | runtime/frame_contract.cpp:19-32 | only the newest published identity may be shown; showing it again is a repetition |
| FrameContracts.ShownIsMonotoneAndPublished | runtime/frame_contract.cpp:6-32 | over any calls, what is shown never goes back and was always published |
| FrameContracts.AnswersMeanHistory | runtime/frame_contract.cpp:6-32 | each of the answers in terms of the greatest identity published before and the frame last shown |
| FrameContracts.PublishingAdvancesIffIncreasing | runtime/frame_contract.cpp:6-17 | every publication advances if and only if the identities strictly increase |
| EdramFormats.ShaderDecodesField | runtime/shaders/edram_reinterpret.comp:63-79 | the shader's normalisation by the high bit yields the value of the 7e3 field |
| EdramFormats.Field7e3RoundTrip | runtime/shaders/edram_reinterpret.comp:45-79 | each of the 1024 fields is packed back from its own value, denormals included |
| EdramFormats.UnormRoundTrip | runtime/shaders/edram_reinterpret.comp:81-87 | each fixed-point level is packed back from its own value |
| EdramFormats.To7e3IsNearest | runtime/shaders/edram_reinterpret.comp:45-61 | a value between two fields is rounded to the nearer, and half way to the even one, by its distance in 65536ths of the step |
| EdramFormats.EndsOfRange | runtime/shaders/edram_reinterpret.comp:45-53 | values outside the range of a 7e3 field take its ends |
| EdramFormats.UnormIsNearest | runtime/shaders/edram_reinterpret.comp:81-87 | a fixed-point field is the nearest level, the upper one half way, and the end of the range outside it |
| EdramFormats.PackInvertsUnpack | runtime/shaders/edram_reinterpret.comp:89-146 | under each of the four storage formats, packing what a 32-bit word reads as gives the word |
| EdramFormats.ChainIsDirect | runtime/gpu_draw_reinterpret.cpp:55-58 | a chain of supported format changes with no write between equals the direct change, and a chain back gives every stored value back |
| EdramFormats.SelfTestCases | runtime/gpu_draw_reinterpret.cpp:404-473 | the worked conversions of the self-test table |
| FormatTables.ImageCoversFormat | runtime/gpu_draw_formats.cpp:145-173 | the image of a format that can be rendered has its channels, none narrower, and its kind of values; exactly as wide but for the 10-bit float ones; other codes have none |
| FormatTables.ImageOfFormats | runtime/gpu_draw_formats.cpp:334-354 | the image of no format, of one, and of several with and without 32-bit channels |
| FormatTables.StorageKeepsShape | runtime/gpu_draw_formats.cpp:181-192 | a storage form has its format's shape, and only the two forms of other blending precision are renamed |
| FormatTables.ConvertsIffOneWord | runtime/gpu_draw_reinterpret.cpp:55-58 | the formats that convert are the storage forms of four channels in 32 bits |
| FormatTables.StoreKeepsChannels | runtime/gpu_draw_formats.cpp:145-173 | an image keeps the channels it has, of values they can hold; those it lacks read as zero, and alpha as one |
| FormatTables.SnormIsNearest | runtime/gpu_draw_formats.cpp:145-173 | a signed channel keeps the nearest level, and the end of the range outside it |
| FormatTables.PixelSizeIsSumOfWidths | runtime/gpu_draw_formats.cpp:232-277 | a destination's pixel size is the sum of its channels' widths, and zero exactly for unknown formats |
| BlendEquation.IdentityIffReplace | runtime/gpu_draw_formats.cpp:356-363 | a register assembled from its six fields passes the test exactly when they are ONE, ADD, ZERO for colour and for alpha |
| BlendEquation.FactorsMean | runtime/gpu_draw_formats.cpp:39-76 | what each factor code weighs by: the even codes by a value, the odd ones by the rest to one |
| BlendEquation.OperationsMean | runtime/gpu_draw_formats.cpp:78-95 | what each operation code makes of two weighed colours |
| BlendEquation.KeepsSourceIff | runtime/gpu_draw_pipelines.cpp:343-359 | exactly which registers give the draw's own colour for every source, destination and constant |
| BlendEquation.NotReadIffReplace | runtime/gpu_draw.cpp:2371-2411 | a draw that meets another format is relabelled as one that does not read exactly when its fields are those, and then its blend is its own colour |
| HostContainers.HoldsIff | runtime/gpu_draw_formats.cpp:145-173 | an image gives back every word of a 32-bit format if and only if it is the four-channel float one or was made for that format alone |
| HostContainers.OwnContainerFits | runtime/gpu_draw_formats.cpp:145-173 | an image made for a fixed-point format rounds any drawn colour exactly as the console's bits do |
| HostContainers.HoldingKeepsBits | runtime/gpu_draw_formats.cpp:145-173 | an image that holds a format packs any colour stored in it to the console's word, representable or not |
| HostContainers.PlannedImageHolds | runtime/gpu_draw_formats.cpp:334-354 | the image chosen for a base's formats, all 32-bit, holds each of them |
| FrameRecording.DeriveClearColor | runtime/gpu_draw.cpp:1705-1740 | a frame starts from zero if and only if some entry of it clears colour and every such clear is zero |
| FrameRecording.FrameRecorder.EndPass | runtime/gpu_draw.cpp:1962-1969 | ends a pass only if one is open |
| FrameRecording.FrameRecorder.BeginPassOn | runtime/gpu_draw.cpp:1972-2054 | clears colour and depth on the surface's first pass and loads afterwards, and clears a depth buffer not used yet that the pass itself does not clear |
| FrameRecording.FrameRecorder.ReinterpretSurface | runtime/gpu_draw_reinterpret.cpp:269-368 | converts every pixel through its bits and stores the result into the surface's own container, or refuses an unsupported pair or an exhausted pool and counts which |
| FrameRecording.FrameRecorder.MeetFormatChange | runtime/gpu_draw.cpp:2333-2414 | a draw that writes no colour changes nothing, one that reads converts, one that only writes relabels |
| FrameRecording.FrameRecorder.AliasDepthIntoSurface | runtime/gpu_draw_reinterpret.cpp:174-267 | the surface becomes the host depth image's bits read under its own format |
| FrameRecording.FrameRecorder.RecordDraw | runtime/gpu_draw.cpp:2415-2482 | one draw: format change, pass, call, aliasing |
| FrameRecording.FrameRecorder.IssueDraw | runtime/gpu_draw.cpp:2415-2462 | the call shades the surface's image and its depth image, and labels a surface that had no format |
| FrameRecording.FrameRecorder.DoDepthClear | runtime/gpu_draw.cpp:2065-2103 | a copy's depth clear fills the whole depth image it names |
| FrameRecording.FrameRecorder.CopyColorOut | runtime/gpu_draw.cpp:2161-2206 | the copy meets a format change as a reading draw does, then reads the image |
| FrameRecording.FrameRecorder.RecordResolve | runtime/gpu_draw.cpp:2058-2207 | one copy: depth, unserved, passed over with its clear because its source is not yet drawn, or colour with its format change |
| FrameRecording.FrameRecorder.RecordFrame | runtime/gpu_draw.cpp:2056-2482 | the loop over the prepared list is the recording the theorems speak of |
| RecordingCounts.CountersAreTallies | runtime/gpu_draw.cpp:2056-2482 | over any list, each counter is the number of commands of its case: converted, refused, out of sets, not read, no write, and the three of the alias pass |
| RecordingCounts.CountedIsRecorded | runtime/gpu_draw_reinterpret.cpp:269-368 | the conversions and alias passes counted are those among the commands |
| PassDiscipline.EveryCommandIsLegal | runtime/gpu_draw.cpp:1962-2054 | over any list, passes do not nest, a draw is in a pass of its own surface, depth base and view against a defined depth buffer, all else is outside passes, the draw calls are the drawing entries in order, and the copy commands are the copies read |
| PassDiscipline.OneClearPerSurface | runtime/gpu_draw.cpp:2022-2044 | a surface's first pass of the frame is its only clearing one |
| CopyDiscipline.EveryCopyIsMade | runtime/gpu_draw.cpp:2058-2207 | the copies made are, in order, exactly the depth copies with a destination and the served colour copies with a destination whose source an earlier entry drew on |
| EdramRefinement.FormatChangeMeets | runtime/gpu_draw.cpp:2333-2414 | after the format change the surface has the label the trust expects and, where the trust says so, shows the console's words under it; a conversion makes values exact |
| EdramRefinement.DrawSound | runtime/gpu_draw.cpp:2333-2482 | one draw, on any bases and of any representable or unrepresentable colours, keeps what is trusted after it right, in bits and in values |
| EdramRefinement.ResolveSound | runtime/gpu_draw.cpp:2058-2207 | one copy with its colour and depth clears keeps what is trusted after it right, and the copy of a trusted source reads what the console's copy reads |
| EdramFrames.TrustedMatchesConsole | runtime/gpu_draw.cpp:2056-2482 | over every single-sample list, with any refusals, aliasing, clears and dropped draws, a trusted image packs to the console's words or has exactly their values, and every copy is its entry's own and does so too where its source was trusted |
| OrdinaryFrames.FrameMatchesConsole | runtime/gpu_draw.cpp:2056-2482 | on an ordinary frame, with partial, masked and blending draws and conversions, every drawn surface that is not stale packs to the console's words; the copies made are exactly those asked for; every colour or depth copy of a source that is not stale reads the console's words; and values are exact too when the words hold what is left at each point |
| EdramRuns.RunMatchesConsole | runtime/gpu_draw.cpp:1694-2482 | over any run of frames and one console memory, at every command of every single-sample frame, the bases earlier clears left known are enough of a start: what is trusted is the console's words and copies of trusted sources are exact |
| EdramRuns.ClearedIsKnown | runtime/gpu_draw.cpp:1694-1740 | a base that a copy clears whole and nothing writes afterwards holds the clear word when the frame ends |
| EdramRuns.ClearedIsTrusted | runtime/gpu_draw.cpp:1694-1740 | a base that the frame before ends by clearing starts the next frame trusted: as colour if the word is zero, as depth if it is the frame's depth clear |
| EdramRuns.OrdinaryRunMatchesConsole | runtime/gpu_draw.cpp:1694-2482 | the same for every frame of a run of ordinary frames against one memory, in which a base that the frame before ends by clearing does not start stale |
| EdramExample.ClearingRunIsOrdinary | runtime/gpu_draw.cpp:2333-2414 | any number of frames that fill a surface, draw over part of it a colour its words cannot hold, blend over it in another format, copy it and clear it is such a run, with its copy wanted and not stale |
| EdramLimits.ClearingCopyExactIff | runtime/gpu_draw.cpp:1694-1740 | after a copy that clears its colour source the surface is right if and only if every covered word already held the clear word |
| EdramLimits.CrossDepthExactIff | runtime/gpu_draw.cpp:2464-2479 | after a draw whose depth base is another drawn surface's base, that surface is right if and only if the depths changed no word of it |
| EdramLimits.AliasExactIff | runtime/gpu_draw_reinterpret.cpp:174-267 | after the alias pass the surface is right if and only if at every pixel the depth word the draw met leaves what the console's depth leaves over the console's colour |
| EdramLimits.AliasOfRightDepthExactIff | runtime/gpu_draw_reinterpret.cpp:174-267 | with a right depth buffer, or one written everywhere: if and only if every pixel is given a depth or keeps its word |
| EdramLimits.UnaliasedExactIff | runtime/gpu_draw.cpp:2464-2479 | where the alias pass is refused, if and only if the depths change nothing the draw left there |
| EdramLimits.FirstPassWipesDepthIff | runtime/gpu_draw.cpp:1995-2029 | a surface's first pass leaves a depth buffer in use right if and only if it held only the clear word |
| EdramLimits.DepthClearRightIff | runtime/gpu_draw.cpp:2065-2103 | a copy's depth clear leaves the depth buffer right if and only if the words it clears too much, or skips, held the clear word |
| EdramLimits.ShadingRightIff | runtime/gpu_draw.cpp:2333-2462 | any draw on bases of its own leaves its surface right if and only if each pixel of what it met shades to the word the console's words shade to |
| EdramLimits.UnrepresentableExactIff | runtime/gpu_draw.cpp:2415-2462 | a draw over exact values leaves exact values if and only if the words hold every colour it leaves |
| EdramLimits.RoundedReadRightIff | runtime/gpu_draw.cpp:2415-2462 | a draw over values that the words do not hold leaves right bits if and only if the rounding stays hidden at every pixel |
| EdramLimits.RefusedConversionRightIff | runtime/gpu_draw_reinterpret.cpp:269-368 | after a refused conversion the draw is right if and only if at every pixel both formats make the same word of it |
| EdramLimits.WrongDepthRightIff | runtime/gpu_draw.cpp:1995-2029 | colour drawn by a test against wrong depth is right if and only if no pixel's word differs |
| EdramLimits.DroppedRightIff | runtime/gpu_draw.cpp:2415-2430 | a draw whose pass cannot be opened leaves its surface right if and only if it would have changed no word |
| EdramLimits.ConversionLosslessIff | runtime/gpu_draw_reinterpret.cpp:269-368 | a conversion inside an image keeps every word if and only if the image is the four-channel float one or the target format's own |
| EdramLimits.OwnContainerHoldsIff | runtime/gpu_draw_formats.cpp:334-354 | an image made for one format holds another if and only if the two read alike |
| EdramLimits.ConvertedCopyExactIff | runtime/gpu_draw.cpp:2161-2206 | a converted copy of a trusted source is exact if and only if the image gives back each of its words |
| EdramLimits.RefusedCopyRightIff | runtime/gpu_draw.cpp:2161-2206 | a copy whose conversion is refused reads the right bits if and only if each value packs to its word under the copy's format |
| EdramPartialWrites.ChannelsSplit | runtime/shaders/edram_reinterpret.comp:89-146 | the four channels are packed and read back independently |
| EdramPartialWrites.PartialWriteRightIff | runtime/gpu_draw.cpp:2371-2411 | a relabelling draw that misses pixels or channels leaves the bits right if and only if each missed channel packs under the new format to what the console's word has there |
| EdramPartialWrites.PartialWriteExactIff | runtime/gpu_draw.cpp:2371-2411 | it leaves exact values exact if and only if each missed channel of each word means the same in both formats |
| EdramFailures.ClearedFrameFails | runtime/gpu_draw.cpp:1694-1740 | a red surface copied with a zero colour clear is zero on the console and still red here, with nothing refused |
| EdramFailures.NarrowCopyFails | runtime/gpu_draw_formats.cpp:334-354 | a base drawn only in 8-bit and copied as 7e3 reads 31.875 on the console and 1 here, with nothing refused |
| EdramFailures.CrossDepthFails | runtime/gpu_draw.cpp:2464-2479 | a red surface whose base another draw's depth buffer fills with zero is zero on the console and still red here |
| EdramFailures.AliasFails | runtime/gpu_draw_reinterpret.cpp:174-267 | one red draw on a base shared with its depth buffer is red on the console and the depth clear here |
| EdramFailures.WipedDepthFails | runtime/gpu_draw.cpp:1995-2029 | a depth buffer filled before a surface's first draw is the depth clear here and what was stored on the console |
| EdramFailures.RelabelFails | runtime/gpu_draw.cpp:2371-2411 | a pixel left alone by an opaque draw of another format holds another word here than on the console |
| EdramFailures.RoundedReadFails | runtime/gpu_draw.cpp:2415-2462 | a 7e3 surface filled with alpha one half and faded by a blend ends with another alpha here than on the console |
| EdramFailures.RefusedConversionFails | runtime/gpu_draw_reinterpret.cpp:269-368 | without a descriptor set for its conversion a draw goes on in the old format |
| FrameArenas.FrameArena.Build | runtime/gpu_draw_arena.cpp:14-44 | the first estimate, the growth to the mark with its headroom, and the failed allocation |
| FrameArenas.FrameArena.Write | runtime/gpu_draw_arena.cpp:46-62 | an aligned block at the cursor that changes no other byte, or a refusal that adds the demand |
| FrameArenas.FrameArena.MakeIndexBuffer | runtime/gpu_draw_arena.cpp:64-84 | a block of the arena or a buffer of its own holding the bytes |
| FrameArenas.FrameArena.MakeUbo | runtime/gpu_draw_arena.cpp:86-108 | the same for uniforms of at least sixteen bytes |
| FrameArenas.FrameArena.EndFrame | runtime/gpu_draw_arena.cpp:110-113 | the mark becomes what the frame needed if that is more |
| FrameArenas.MadeReadsBack | runtime/gpu_draw_arena.cpp:46-84 | a buffer that was handed out holds the bytes asked for |
| FrameArenas.BytesSurvive | runtime/gpu_draw_arena.cpp:46-108 | it still does after anything that is made later |
| FrameArenas.UniformReadsBack | runtime/gpu_draw_arena.cpp:86-108 | a uniform reads back wherever it went; in the arena its block is aligned and has at least sixteen bytes |
| FrameArenas.MakesFollowLayout | runtime/gpu_draw_arena.cpp:46-84 | over a frame of allocations, fallbacks or not, the store's cursor and demand are those of the bare layout the next rows speak of |
| FrameArenas.OverflowsAreCounted | runtime/gpu_draw_arena.cpp:64-84 | over a frame each request the arena cannot take counts once as an overflow, and has its own buffer if one could be made |
| FrameArenas.BlocksAreDisjoint | runtime/gpu_draw_arena.cpp:46-62 | over a frame, blocks are aligned, in bounds and pairwise disjoint |
| FrameArenas.NoOverflowIff | runtime/gpu_draw_arena.cpp:46-62 | a frame overflows nowhere if and only if its full layout fits |
| FrameArenas.MarkFallsShortByAtMostSlack | runtime/gpu_draw_arena.cpp:54-58 | the mark falls short of the full layout by at most the alignment less one of each request |
| FrameArenas.SlackBound | runtime/gpu_draw_arena.cpp:54-58 | that slack is at most the largest alignment less one for each request |
| FrameArenas.SameRequestsFitNextFrame | runtime/gpu_draw_arena.cpp:110-113 | when every size is a multiple of the one alignment, the same requests fit the next frame |
| FrameArenas.GrownArenaFits | runtime/gpu_draw_arena.cpp:30-38 | after a growing overflow the same requests fit if the headroom covers the slack |
| FrameArenas.OverflowNeedNotGrow | runtime/gpu_draw_arena.cpp:110-113 | a family of frames that overflows and leaves the arena as it was |
| FrameArenas.OverflowExceedsIff | runtime/gpu_draw_arena.cpp:51-58 | at a given arena, an overflowing request puts the demand past it if and only if the padding in front of the request is less than the excess, earlier overflows and tail padding together |
| FrameArenas.OverflowGrowsIff | runtime/gpu_draw_arena.cpp:51-58 | a frame's first overflowing request puts the demand past every arena it can overflow if and only if its tail padding covers the padding in front of it |
| FrameArenas.OverflowGrowsFrame | runtime/gpu_draw_arena.cpp:30-58 | if some overflowing request of a frame meets that condition the next frame's arena is larger, whatever else the frame asks for |
| FrameArenas.FrameGrowsIff | runtime/gpu_draw_arena.cpp:30-58 | the next frame's arena is larger if and only if the bytes asked for, the padding in front of those that land and the padding behind those that overflow come to more than the arena |
| GuestIndices.SwapsPermuteBytes | runtime/gpu_draw_indices.cpp:23-30 | each swap mode moves the guest's bytes and changes none |
| GuestIndices.ReadGuestIndices | runtime/gpu_draw_indices.cpp:36-58 | every index is the number its bytes in guest memory spell in the draw's width and byte order, and all are zero when the fetch would leave the mirror |
| GuestIndices.HalfIsNumber | runtime/gpu_draw_indices.cpp:23-26 | a 16-bit index is its bytes' number, the high byte first in modes 1 and 2 |
| GuestIndices.WordIsNumber | runtime/gpu_draw_indices.cpp:27-30 | a 32-bit index is its bytes' number in the mode's order |
| GuestIndices.ExpandQuads | runtime/gpu_draw_indices.cpp:84-96 | two triangles a quad, corners 0 1 2 and 0 2 3 |
| GuestIndices.QuadIndices | runtime/gpu_draw_indices.cpp:70-96 | a quad's six indices are those of its vertices 0 1 2 and 0 2 3, each the guest's number or the vertex's own place |
| GuestIndices.PlainIndices | runtime/gpu_draw_indices.cpp:106-114 | any other indexed draw keeps its indices in order, and one without any gets a single zero |
| GuestIndices.ConvertIndices | runtime/gpu_draw_indices.cpp:62-116 | the buffer made for a draw holds its reference conversion; empty quads and a full arena are reported |
| GuestIndices.IndexPreparer.Prepare | runtime/gpu_draw_indices.cpp:151-170 | a hit hands out the stored range, a miss converts and stores only what succeeded, and the counters split the lookups |
| GuestIndices.FetchReadsWord | runtime/gpu_draw_indices.cpp:97-113 | fetching 32-bit index i from the bytes gives word i |
| GuestIndices.KeyIsComplete | runtime/gpu_draw_indices.cpp:118-122 | draws with the same key have the same conversion |
| GuestIndices.PrepareServes | runtime/gpu_draw_indices.cpp:151-170 | one call keeps every stored range right and answers rightly |
| GuestIndices.ReuseRefinesConversion | runtime/gpu_draw_indices.cpp:151-170 | over any requests of a frame, with uniform writes between and failures anywhere, every buffer handed out holds at the end exactly its draw's reference conversion |
| CaptureFiles.ReadFrameCapture | runtime/frame_capture.cpp:191-322 | the reader with its sticky flag and early exits returns what the plain parser returns, for any bytes |
| CaptureFiles.ScanBlocks | runtime/frame_capture.cpp:117-126 | a block is kept if and only if some byte of it inside the window is not zero |
| CaptureFiles.Intern | runtime/frame_capture.cpp:101-109 | the map from hash to index agrees with a search of the table |
| CaptureFiles.InternShaders | runtime/frame_capture.cpp:110-115 | each draw refers to the table entry of its hash, or to none |
| CaptureFiles.WriteFrameCapture | runtime/frame_capture.cpp:75-189 | with room for it the file is the newest encoding, without it the writer reports failure |
| CaptureTheorems.ParseExtends | runtime/frame_capture.cpp:49-64 | what parses goes on parsing the same when bytes are appended |
| CaptureTheorems.AcceptedHasHeader | runtime/frame_capture.cpp:200-212 | whatever is accepted starts with the eight letters and a version from 1 to 4 |
| CaptureTheorems.FlagsRead | runtime/frame_capture.cpp:285-303 | a draw's flags are two bits and a byte order, whatever stands above them |
| CaptureTheorems.RoundTrip | runtime/frame_capture.cpp:98-303 | in the layout of every version: the header, the whole window of guest memory byte for byte, and each draw's registers, shaders and stored fields come back, with the defaults of fields a version lacks |
| CaptureTheorems.TruncationIsCaught | runtime/frame_capture.cpp:200-310 | no proper prefix of a written capture is accepted |
| CaptureTheorems.ShadersSurviveIff | runtime/frame_capture.cpp:94-109 | every draw gets its own shaders back if and only if equal hashes mean equal code |
| GuestUpload.RoundedIsPagesTouched | runtime/gpu_draw.cpp:1531-1536 | a rounded range is the pages the range touches, as far as the mirror reaches |
| GuestUpload.EmptyRangeTakesAPage | runtime/gpu_draw.cpp:1531-1536 | an empty range off a page boundary still takes its page |
| GuestUpload.RoundRanges | runtime/gpu_draw.cpp:1531-1536 | the first loop rounds and clips every range in place |
| GuestUpload.SortedSorts | runtime/gpu_draw.cpp:1537 | the sort orders the pairs and is a permutation |
| GuestUpload.SortedByBothEnds | runtime/gpu_draw.cpp:1537 | the order is by where ranges start and then by where they end |
| GuestUpload.MergeRun | runtime/gpu_draw.cpp:1541-1544 | the inner loop yields a run covering exactly the ranges it passes, and stops before a gap |
| GuestUpload.TotalCountsPoints | runtime/gpu_draw.cpp:1549 | the sum of separated spans is the number of bytes they cover |
| GuestUpload.Upload | runtime/gpu_draw.cpp:1528-1560 | the copied spans ascend and never touch, cover exactly the rounded and clipped ranges, the count is that union's size, the mirror agrees with guest memory on every fetched byte and is unchanged outside |
| SurfaceTargets.RememberedIsFound | runtime/gpu_draw_targets.h:37-53 | the two views of all bases below 0x1000 have slots of their own; higher bases are never remembered |
| SurfaceTargets.FrameSurfaceTargetLookup.Find | runtime/gpu_draw_targets.h:37-42 | the slot of a base and view, or nothing |
| SurfaceTargets.FrameSurfaceTargetLookup.Remember | runtime/gpu_draw_targets.h:44-48 | writes that slot and no other |
| SurfaceTargets.RenderTargetCache.GetSurfaceTarget | runtime/gpu_draw_targets.cpp:115-290 | the lookup, the unknown base, the kept, promoted, lost and new target, and every failure among them |
| SurfaceTargets.SingleIsSizeOne | runtime/gpu_draw_formats.cpp:339-340 | being one format is being of size one |
| SurfaceTargets.WideningLowersRank | runtime/gpu_draw_formats.cpp:334-354 | more formats never raise the rank of a container, and another container lowers it |
| SurfaceTargets.GetKeepsSound | runtime/gpu_draw_targets.cpp:115-157 | whatever a request answers is live, in the container of its accumulated formats, and holds all the frame's |
| SurfaceTargets.LookupChangesNothing | runtime/gpu_draw_targets.h:69-75 | over any frames and any driver failures, the lookup on or off gives the same answers, targets and driver calls |
| SurfaceTargets.AnsweredStaysAnswered | runtime/gpu_draw_targets.h:69-75 | no promotion follows a frame's first answer for a base and view |
| SurfaceTargets.PromotedAtMostTwice | runtime/gpu_draw_targets.cpp:129-157 | over any run a base and view is given at most three images, plus three for each promotion that lost its target |
| SurfaceTargets.TwoPromotionsHappen | runtime/gpu_draw_targets.cpp:129-157 | a run from the start reaches three images |
| SurfaceTargets.FormatsOnlyGrow | runtime/gpu_surface_format_capacity.h:17-23 | a live target's formats only grow |
| SurfaceTargets.LosesIff | runtime/gpu_draw_targets.cpp:148-170 | a target is lost exactly when a promotion is due, the wait succeeds and the creation fails |
| SurfaceTargets.FormatsKeptIff | runtime/gpu_draw_targets.cpp:129-170 | over any run from a live target, its formats are kept throughout if and only if no request loses it |
| SurfaceTargets.LossForgets | runtime/gpu_draw_targets.cpp:151-157 | a base without a target gets one with the next frame's formats alone |
| SurfaceTargets.FormatIsForgotten | runtime/gpu_draw_targets.cpp:129-170 | three frames from the start after which a base first drawn as 8-bit holds only 10-bit |
| ResolveRouting.ResolveTargets.FindContaining | runtime/gpu_draw_targets.cpp:452-474 | the walk finds the lowest texture that holds the destination |
| ResolveRouting.ResolveTargets.GetResolveTarget | runtime/gpu_draw_targets.cpp:435-552 | the known base, the region of a texture, the new texture and the failed creation, with both counters |
| ResolveRouting.RoutesReach | runtime/gpu_draw_targets.cpp:446-474 | over any run, texture base plus rows is the destination, at row zero or below the texture's height |
| ResolveRouting.RoutesNeverCollide | runtime/gpu_draw_targets.cpp:446-474 | different destinations never share a row of a texture |
| ResolveRouting.NewTexturesStandApart | runtime/gpu_draw_targets.cpp:446-474 | no texture is made on a row of an older one of the same pitch and pixel size |
| ResolveRouting.RouteMovesIff | runtime/gpu_draw_targets.cpp:452-474 | a new texture moves a route exactly when it is the destination itself or holds it from a lower base |
| ResolveRouting.RouteMovesOverRunIff | runtime/gpu_draw_targets.cpp:435-552 | over any requests, a routed destination's answer differs the second time if and only if one of them made a texture at the destination or one that holds it from a lower base |
| ResolveRouting.LowerTextureTakesOver | runtime/gpu_draw_targets.cpp:452-474 | such a move happens |
| ResolvePlanning.PlanFormats | runtime/gpu_draw_resolve_plan.cpp:28-37 | the table holds exactly the formats each base is rendered with |
| ResolvePlanning.RendersAsMeant | runtime/gpu_draw_resolve_plan.cpp:28-37 | a draw whose registers hold a mode, a base and a format renders in them exactly in the two rendering modes |
| ResolvePlanning.PlanRoutes | runtime/gpu_draw_resolve_plan.cpp:84-159 | the loop over the copies is the plan the theorems speak of |
| ResolvePlanning.TexturesAreTheirCopies | runtime/gpu_draw_resolve_plan.cpp:84-159 | every texture a plan adds has exactly the destination, source base, pitch, height, format and pixel size that the registers of one of its colour or depth copies name, and every other is as it was |
| ResolvePlanning.UnmatchedAreCounted | runtime/gpu_draw_resolve_plan.cpp:135-147 | the unmatched count is that of the colour copies with a destination whose source is not rendered |
| ResolvePlanning.PlanHolds | runtime/gpu_draw_resolve_plan.cpp:84-159 | every route reaches its destination in a texture the plan names, and every depth copy is counted once |
| ResolvePlanning.PlanServesEveryCopy | runtime/gpu_draw_resolve_plan.cpp:84-159 | when every image can be made, exactly the destinations of copies with a destination and a source are routed, and the dispatch count is the number of those copies |
| ResolvePlanning.PlannedRoutesDiffer | runtime/gpu_draw_resolve_plan.cpp:153-157 | no two destinations of a plan are routed to one place |
| ResolvePlanning.PlanResolves | runtime/gpu_draw_resolve_plan.cpp:15-162 | both passes together |
| AudioPace.SlotLaw | runtime/audio_pace.h:48-71 | slot k is due k periods after the first plus one for each slot dropped |
| AudioPace.RebaseIsLastSlotNotAfterNow | runtime/audio_pace.h:65-69 | a re-based pump is put on the last slot at or before now |
| AudioPace.NotInThePastIff | runtime/audio_pace.h:57-69 | exactly when the next slot is not in the past |
| AudioPace.WindowBound | runtime/audio_pace.h:48-71 | however callbacks stall, those starting in any window number at most the window's periods plus the slack plus two |
| AudioPace.BoundIsMet | runtime/audio_pace.h:58-64 | a pump as late as allowed reaches the bound |
| AudioPace.NoBoundBelowMinusOne | runtime/audio_pace.h:58-69 | with a slack setting below -1 there is no bound |
| AudioPace.NoPeriodMeansNow | runtime/audio_pace.h:53-57 | a period that is not positive schedules for now |
| DirectoryInfo.WriteDirectoryEntry | runtime/directory_info.cpp:34-62 | the record's bytes in place and no other byte changed, or nothing written |
| DirectoryInfo.FittingIsLongestPrefix | runtime/directory_info.cpp:71-81 | a prefix fits exactly when it is no longer than the count |
| DirectoryInfo.RecordsInPlace | runtime/directory_info.cpp:26-30 | records lie on multiples of eight, end to end, and only the last is marked as last |
| DirectoryInfo.RecordDecodes | runtime/directory_info.cpp:42-59 | a record's name, size, attribute and offset read back |
| DirectoryInfo.RecordRest | runtime/directory_info.cpp:42-59 | the times and the padding of a record are zero, its allocated size is its size, and its attribute is the directory's or the normal one |
| DirectoryInfo.WalkFindsEntries | runtime/directory_info.cpp:86-95 | following the offsets ends and finds exactly the entries written |
| DirectoryInfo.WriteDirectoryListing | runtime/directory_info.cpp:64-96 | the longest prefix that fits is in memory and found by the walk, the size is exact, and no byte outside it has changed |
| FloatConstants.SlotsAscend | runtime/gpu_draw_pixels.cpp:43-54 | constants take their slots in ascending order |
| FloatConstants.TakingLowest | runtime/gpu_draw_pixels.cpp:48-49 | clearing the lowest set bit takes one constant and leaves the rest |
| FloatConstants.PackFloatConstants | runtime/gpu_draw_pixels.cpp:37-55 | each used constant is in the slot counted by the used ones below it, the rest is zero, and nothing is written past the block |
| FloatConstants.PackedDwords | runtime/gpu_draw_pixels.cpp:37-55 | the same dword by dword |
| FloatConstants.SlotHoldsItsConstant | runtime/gpu_draw_pixels.cpp:37-55 | every slot below the count holds a used constant: the slots have no gap |
| ResolveAddressing.DeriveResolveSampling | runtime/gpu_draw_formats.cpp:398-466 | the offset is the first sample selected and the span reaches the last |
| ResolveAddressing.SelectedSamples | runtime/gpu_draw_formats.cpp:408-440 | which of a surface's samples each selector names: one, the left or the right column, or all; depth takes the first |
| ResolveAddressing.SamplesFillPixel | runtime/gpu_draw_formats.cpp:441-447 | samples are numbered down each column, and every place of a pixel's grid is one sample's |
| ResolveAddressing.SelectedStaysInside | runtime/gpu_draw_formats.cpp:441-463 | the span stays in the pixel's own samples, and depth is never averaged |
| ResolveAddressing.ClippedAxisIff | runtime/gpu_draw_resolve.cpp:230-242 | the clamped rectangle holds exactly the pixels asked for that both images have |
| ResolveAddressing.ClipRectangle | runtime/gpu_draw_resolve.cpp:230-242 | the clamping of both axes, inside the destination |
| ResolveAddressing.TapInside | runtime/gpu_draw_resolve.cpp:353-368 | every tap lies in the source grid and in its own pixel's block |
| ResolveAddressing.InvocationIsTexel | runtime/gpu_draw_xlate.cpp:864-900 | an invocation's four reads, addressed from its push constants, lie in the source and are the taps of the source pixel its texel stands for |
| ResolveAddressing.ResolveSurfaceTo | runtime/gpu_draw_resolve.cpp:226-372 | each texel in reach holds its source pixel's taps, channel by channel scaled, with red and blue exchanged exactly when asked, or the unconverted texel where no dispatch is possible, or what it held where no descriptor set is left; every other texel holds what it held, and a set is used exactly by a dispatch |
| ResolveAddressing.TexelIsMeanOfSelected | runtime/gpu_draw_xlate.cpp:879-930 | channel by channel, a copied texel is the scaled mean of exactly the samples the copy selects |

## Left out

- Vulkan objects, barriers, descriptor writes, fences and shader modules: a pass, a draw, a copy or a clear is one command of a list.
- Probes, censuses, dumps, logging and the control-arm settings, each at its default.
- The audio device, signal handling, guest start-up, `CollapseEdramTiling`, `UniformCache`, `FindResolveConsumerExtents` and the draw preparation loop: their results are inputs here.
- Finite tables and one-line helpers with no property beyond their own text, and the descriptor builder's cache, whose 64-bit key can collide.
- FrameQueues.FrameQueue.PollTake: is one critical section of the wait; blocking is in the transition system, which leaves fairness of the scheduler open.
- FrameQueueProtocol.TakenFramesPublish: identities are unbounded; the wrap of a 64-bit counter is not modelled.
- EdramFrames.TrustedMatchesConsole: targets are single-sample; the passes, copies and commands of two-sample ones are covered by `EveryCommandIsLegal` and `EveryCopyIsMade` only. Values are exact rationals: the rounding of the half-float container and of the shader's float arithmetic is outside it, the console's rounding to its words is not. Different bases do not overlap; ranges of EDRAM tiles and the order of samples within a tile are not modelled. A base keeps one depth format and the depth image keeps its words exactly. A surface in a 64-bit format is never trusted.
- OrdinaryFrames.FrameMatchesConsole: no depth buffer, depth clear or unprepared command of an ordinary frame shares a base with a colour surface; the other frames are those of `TrustedMatchesConsole`. Which bases are stale is worked out from the entries.
- EdramPartialWrites.PartialWriteRightIff: the image is the four-channel float one, which a base drawn under two of the formats has.
- A guest command that the draw preparation drops is an arbitrary function on the words of one base.
- EdramFormats.Field7e3RoundTrip: the encoder is on numbers; its branch for NaN is not modelled.
- FrameRecording.FrameRecorder.RecordResolve: the copy's rectangle, scale and descriptor budget are one flag that says whether it can be served; the copy itself is `ResolveSurfaceTo`.
- FrameRecording.FrameRecorder.RecordDraw: the draw's effect on a pixel and on its depth word is a function given with the entry; what its fragments read from textures is not modelled.
- FrameRecording.FrameRecorder.BeginPassOn: depth and stencil are one 32-bit word.
- FrameArenas.FrameArena.MakeUbo: a uniform shorter than sixteen bytes is padded by what lies behind it, as in the source, so the caller supplies sixteen readable bytes; a fallback buffer's bytes behind the data are not described.
- FrameArenas.FrameArena.Build: sizes are unbounded integers, and alignments need only be positive.
- GuestIndices.ConvertIndices: index counts are below 2^32; byte counts that would wrap 32 bits are not modelled.
- CaptureFiles.WriteFrameCapture: the window is at most 0xFFFF0000 bytes, past which the source's 32-bit scan offset wraps; lengths fit the fields they are stored in. Opening and naming files is not modelled.
- CaptureFiles.ReadFrameCapture: allocation failure for counts no file can hold is not modelled.
- CaptureTheorems.RoundTrip: a draw with no register file is written like one with an empty file and reads back as that.
- GuestUpload.Upload: 64-bit addresses do not wrap, and the sort is specified by its result.
- SurfaceTargets.RenderTargetCache.GetSurfaceTarget: a wait or a creation is one driver call that succeeds or fails; pass objects, extents and framebuffers are not kept.
- ResolveRouting.ResolveTargets.GetResolveTarget: the image's extent and its host format do not affect routing and are left out.
- ResolvePlanning.PlanRoutes: the consumer extents only size images and are left out.
- AudioPace.NotInThePastIff: the slack is not negative.
- AudioPace.WindowBound: nanoseconds are unbounded integers; a slack of at least one is counted even when the setting is zero.
- DirectoryInfo.WriteDirectoryListing: a record's size plus the buffer's is below 2^32, past which the source's sums wrap.
- FloatConstants.PackFloatConstants: the count covers the bitmap, as the translator provides it; the source writes past its block otherwise.
- ResolveAddressing.ResolveSurfaceTo: a single-sample source and a destination origin that is not negative; the native multisample route and the depth variant with its native two-sample case are not modelled. Colours are rationals.
