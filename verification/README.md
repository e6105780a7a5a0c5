# A verified model of the tracer core

This project models the part of the Go tracing library that takes spans from creation to bytes on
the wire, and proves what it promises over every run and every input. Three smaller cores that stand
beside it are modelled too: the application-security rate limiter, the profiler's upload queue, and
the generator behind the wrapped response writers.

How the pieces are modelled:

- Code shared by many goroutines is a state machine with one step per lock-protected region, atomic
  instruction or channel operation, and the theorems hold for every interleaving: `TraceRuns` and
  `TraceSampling` (one trace and its spans), `SpanSampling` (single-span sampling among them),
  `TokenBucket`, `WallClock`, `ConcentratorRuns`, `Worker`, `UploadQueue`.
- Objects that update their fields are classes whose methods are proved against the transition
  functions of those machines: `TraceObjects`, `TokenBucket.TokenTicker`, `Payload.Buffer`,
  `LogWriter.Writer`, `ConcentratorObjects.Concentrator`, `SqlComment.SQLCommentCarrier`,
  `UploadQueue.Profiler`, `Worker.Tracer`.
- Loops over maps visit the entries in an arbitrary order; what they compute is proved not to depend
  on it, or stated for every order.
- Go's integer widths are explicit where they can be exceeded: 64-bit counters and end times in the
  statistics, the 32-bit payload count and drop counters, 64-bit IDs.

| file | component |
|---|---|
| TraceModel, TraceRuns, TraceSampling, TraceSealing, TraceTags, TraceObjects | life cycle and sampling of one trace |
| TagHeader, Propagation, HeaderOrder, Injection, B3, Numerals | context propagation |
| Msgpack, SpanCodec, SpanEncoder, SpanWire, SpanRoundTrip, Payload | the msgpack payload |
| LogWriter, LogReader | the size-limited JSON lines |
| StatsModel, Concentrator, ConcentratorObjects, DurationRounding | client-side statistics |
| Worker, SpanRules, SpanSampling, KnuthSampler | the worker, single-span rules and sampling by rate |
| SqlText, SqlComment | SQL comments and traceparent |
| TokenBucket, WallClock | the token bucket |
| UploadQueue | the profiler's evicting queue |
| Combinations (module Lists), ResponseWriters | combinations and the generated switch |

`dafny verify dfyconfig.toml` checks the whole project.

## Where the code says something else than its documentation

The model follows the code, and each difference is a theorem.

- The tags header limit is checked without the separators about to be written, so an emitted header
  can be one or two bytes longer than the limit, and never more (`TagHeader.EmittedLength`).
- A log line's size check leaves no room for the trace's closing bracket: a line can reach the limit
  exactly, without its newline, and never exceed it (`LogWriter.LineMayReachLimit`).
- Durations are rounded within 1/512, not within the 1/1024 of the comment; the smaller bound holds
  up to 2050, is first missed at 2051 and for some input of every larger shift
  (`DurationRounding.ErrorBound`, `DurationRounding.FirstMiss`, `DurationRounding.WorstCase`).
- An exported statistics bucket starts with as many blank entries as it has groups
  (`StatsModel.ExportShape`); they weigh nothing (`StatsModel.BlanksWeighNothing`).
- Bucket alignment truncates toward zero, so a span with a negative end lies outside its bucket's
  window unless its end is a multiple of the bucket size (`ConcentratorRuns.BucketHoldsEnd`).
- An SQL mode that is none of the four declared ones replaces the query by the empty string
  (`SqlComment.QueryKeptExactly`).
- The quote-escaping rule of the SQL value replacer never applies (`SqlText.QuoteRuleIsDead`).
- Injecting an extracted context, which has no span, into an SQL query panics in the two commenting
  modes (`SqlComment.SQLCommentCarrier.Inject`).
- Extracting headers can depend on the order of the keys: when keys for the same thing disagree, or
  when any nonpositive priority, even one overridden later in its list, stands beside tags that name a
  decision maker (`HeaderOrder.OrderIndependentExactly`). A context of the tracer is itself of the last
  kind only if it was extracted so and no priority has been set since
  (`TraceSampling.ReachableIsConsistent`).
- The count of errors is kept per span context, copied to a child when it starts, not per trace as its
  comment says; a span with an error still has its trace kept when it finishes
  (`TraceSampling.ErrorKeepsTrace`).
- A kept span keeps its trace only if the trace was not dropped before
  (`TraceSampling.ChunkWithKeptSpanIsKept`, `TraceSampling.DropBeforeKeepWins`).
- The token bucket can grant two full buckets at one tick stamp (`TokenBucket.BurstOfTwoBuckets`) and
  four at one instant of its callers' clock (`WallClock.WallClockBoundIsAttained`). It divides by zero
  for the capacity 0 and for those beyond 10^9 in absolute value (`TokenBucket.DividesByZeroExactly`).
- A payload without a push reads as no bytes at all rather than as an empty array
  (`Payload.PushedIsOneShot`).
- A batch that the profiler takes off its queue after exit is not uploaded, and the closed queue yields
  zero batches (`UploadQueue.AfterExit`, `UploadQueue.ReceivedInOrder`).
- Single-span sampling still writes its metrics on spans that have been released
  (`TraceRuns.ReleasedSpansAreImmutable`).
- SetUser writes to the root span even after it has been released
  (`TraceRuns.SetUserWritesReleasedRoot`).

## Model

| member | source | states |
|---|---|---|
| TraceRuns.BufferAlways | ddtrace/tracer/spancontext.go:269-346 | in every run the buffer invariant holds: accepted spans are the released ones followed by the buffered ones, `finished` counts the buffered spans already acknowledged and stays below the buffer length unless both are 0, released spans are all acknowledged |
| TraceRuns.EverySpanOnce | ddtrace/tracer/spancontext.go:269-346 | an accepted span is still buffered or in exactly one completed chunk, never both; chunks hold finished spans only |
| TraceRuns.AllReleasedWhenAllFinished | ddtrace/tracer/spancontext.go:298-346 | once every accepted span of a trace that never overflowed has finished, all were released, in push order, and the buffer is empty |
| TraceRuns.FullIsFinal | ddtrace/tracer/spancontext.go:269-307 | after an overflow no later step of any run completes a chunk or buffers a span |
| TraceRuns.ReleasedSpansAreImmutable | ddtrace/tracer/span.go:313-469 | a released span changes only by SetUser on the root, under the two user keys, and by single-span sampling, under its four metrics; in a run without such steps it does not change at all |
| TraceRuns.SetUserWritesReleasedRoot | ddtrace/tracer/span.go:178-210 | a run from a new trace in which SetUser writes a finished, released root |
| TraceSampling.DecisionAlways | ddtrace/tracer/spancontext.go:210-216 | in every run the decision is the first verdict called, and each chunk carries the first verdict called before it left |
| TraceSampling.DecisionIsFinal | ddtrace/tracer/spancontext.go:210-216 | a keep or drop decision is never overwritten by any continuation |
| TraceSampling.ChunkWithKeptSpanIsKept | ddtrace/tracer/span.go:429-469 | a chunk containing a span that asked for keep is kept, unless a drop came before the chunk left |
| TraceSampling.DropBeforeKeepWins | ddtrace/tracer/span.go:464-468 | a run from a new trace in which a drop comes first and a span that asked for keep leaves in a dropped chunk |
| TraceSampling.KeptExactly | ddtrace/tracer/span.go:444-468 | a span that finishes while its trace is undecided has it kept if and only if the agent does not allow dropping, or the priority is positive, or the span's context counts an error, or its event rate samples the trace ID |
| TraceSampling.ErrorCountFollowsFlag | ddtrace/tracer/span.go:227-241 | tagging an error moves the context's count with the span's flag, and only then |
| TraceSampling.ErrorKeepsTrace | ddtrace/tracer/span.go:524-537 | in every run a span that finishes with an error asks for keep, whatever the agent allows, and an undecided trace is then kept |
| TraceSampling.MakerAlways | ddtrace/tracer/spancontext.go:248-265 | after any run the decision-maker tag is what the whole history of settings determines, and the priority is the last one set |
| TraceSampling.LocalDecisionMaker | ddtrace/tracer/spancontext.go:248-265 | on a new trace the tag is exactly the first known sampler in the current unbroken run of positive priorities, as text that parses to its negated number, and absent when the last priority is not positive |
| TraceSampling.ReachableIsConsistent | ddtrace/tracer/spancontext.go:248-265 | from any first trace, a reachable one names a decision maker together with a nonpositive priority if and only if the first one did and no priority has been set since |
| TraceSampling.FirstPushRepairs | ddtrace/tracer/tracer.go:431-436 | an inconsistent extracted trace becomes consistent with the first span pushed with an inherited priority |
| TraceSampling.FrozenForever | ddtrace/tracer/spancontext.go:248-265 | in a locked trace no run changes the priority, the decision-maker tag or the root's priority metric |
| TraceSampling.RootAlways | ddtrace/tracer/spancontext.go:309-315 | on a locally created trace, locked means that the root's metric is the trace's priority, after every run |
| TraceSampling.RootFinishFreezes | ddtrace/tracer/spancontext.go:298-315 | from a new trace: once the root is acknowledged with a priority set, every later state has that priority, that tag and that root metric |
| TraceSealing.HeadGetsTags | ddtrace/tracer/spancontext.go:316-329 | acknowledging the span at the head of the buffer puts every propagating tag on it, and every other trace tag, each in its field or among the tags and no longer as a metric; any other key keeps its value |
| TraceSealing.OthersGetNoTags | ddtrace/tracer/spancontext.go:316-329 | a span that is not at the head gains no tag |
| TraceSealing.ChunkHeadCarriesTags | ddtrace/tracer/spancontext.go:298-346 | in every run the first span of every completed chunk carries the tags and propagating tags that the trace had when it was acknowledged, but for keys that sampling (and, on the root, SetUser) writes later |
| TraceSealing.StampIsFinal | ddtrace/tracer/spancontext.go:316-329 | the tags recorded at that acknowledgement are recorded once: no later step of any run replaces them |
| TraceSealing.ChunkHeadNamesMaker | ddtrace/tracer/spancontext.go:325-327 | in particular it names the decision maker of that moment |
| TraceTags.SetMetaReplaces | ddtrace/tracer/span.go:313-330 | setting a tag leaves exactly one value under its key, or sets the field it names, and touches no other key |
| TraceTags.SetMetricReplaces | ddtrace/tracer/span.go:360-377 | setting a number leaves exactly that value under its key; the two keys that stand for a priority keep none and set the priority metric instead |
| TraceTags.NoKeyTwice | ddtrace/tracer/span.go:313-377 | in every run no key of a span is both a tag and a metric, and no metric is stored under the two priority keys |
| TraceTags.PriorityTagSets | ddtrace/tracer/span.go:370-373 | the number "sampling.priority" sets span and trace priority by the manual sampler |
| TraceTags.ManualKeepSets | ddtrace/tracer/span.go:366-369 | the number "manual.keep" asks for priority 2 when it is that of the security sampler, and for nothing otherwise |
| TraceTags.UserIdOnce | ddtrace/tracer/span.go:183-197 | SetUser leaves the ID among the propagating tags or on the root span, never both |
| TraceObjects.Span.SetMeta | ddtrace/tracer/span.go:313-330 | the object's setMeta does what the transition function says, field keys included |
| TraceObjects.Span.SetMetas | ddtrace/tracer/spancontext.go:316-329 | copying a tag map in any order gives one result |
| TraceObjects.Trace.SetSamplingPriority | ddtrace/tracer/spancontext.go:248-265 | the new trace state is the transition function of the old one |
| TraceObjects.Trace.TagMetric | ddtrace/tracer/span.go:360-377 | a number under a priority key sets the priority of span and trace; a finished span is left alone |
| TraceObjects.Trace.Push | ddtrace/tracer/spancontext.go:269-293 | the new trace state, overflow and inherited priority included |
| TraceObjects.Trace.FinishedOne | ddtrace/tracer/spancontext.go:298-346 | the new trace state and the chunk handed over if and only if the buffer completes and there is a tracer; the head of the buffer gets every propagating tag and every other tag, any other span none |
| TraceObjects.Trace.Finish | ddtrace/tracer/span.go:429-469 | only the first finish does anything; an undecided trace is kept if and only if dropping is not allowed, or its priority is positive, or the context counts an error, or the event rate samples the ID; that comes before the acknowledgement |
| TokenBucket.DividesByZeroExactly | internal/appsec/limiter.go:46-48 | a division by zero happens exactly for the capacity 0 and for those beyond 10^9 in absolute value |
| TokenBucket.IncrementFillsToTheBrim | internal/appsec/limiter.go:66-84 | the modulo in the refill adds exactly up to the capacity |
| TokenBucket.PotentialBound | internal/appsec/limiter.go:46-94 | under every interleaving of loads and swaps, tokens stay within the capacity, and granted plus held plus accumulated time grows by no more than the clock |
| TokenBucket.PotentialIsExact | internal/appsec/limiter.go:46-94 | over any run the potential grows by exactly the clock's advance if and only if no tick overflowed the carry and no refill overflowed the bucket |
| TokenBucket.GrantsArePaidFor | internal/appsec/limiter.go:46-94 | grants*ns + tokens*ns + elapsed is at most initial*ns plus the time since the start |
| TokenBucket.WindowBound | internal/appsec/limiter.go:134-143 | at most 2*maxTokens + W/nsPerToken grants in any window of length W of the refiller's tick stamps |
| TokenBucket.BurstOfTwoBuckets | internal/appsec/limiter.go:46-94 | for every capacity a reachable state grants 2*maxTokens calls at one tick stamp, so that bound is attained |
| WallClock.WallClockBound | internal/appsec/limiter.go:46-102 | by the callers' clock, with a refiller that may be held up anywhere and a ticker channel that holds one tick, at most 4*maxTokens + W/nsPerToken grants in any window of length W |
| WallClock.WallClockBoundIsAttained | internal/appsec/limiter.go:46-102 | for every capacity some run grants 4*maxTokens calls at one instant of that clock |
| TokenBucket.TokenTicker.Allow | internal/appsec/limiter.go:134-143 | whatever other goroutines store in between, the call ends and acts as one atomic step on the last value it saw |
| TokenBucket.TokenTicker.AddDue | internal/appsec/limiter.go:66-90 | the spin loop ends and adds the due tokens up to the capacity to the last value it saw |
| TokenBucket.TokenTicker.Refill | internal/appsec/limiter.go:46-94 | one tick: tokens added, and the time carried over, which is kept whole when the bucket was full |
| TokenBucket.RefillIsSteps | internal/appsec/limiter.go:56-90 | one tick and its refill as steps leave the same tokens and the same carry as the object's refill |
| Numerals.IdRoundTrip | ddtrace/tracer/util.go:63-72 | an ID is read back from its unsigned and from its signed decimal spelling |
| Numerals.FormatDigits | ddtrace/tracer/textmap.go:401-402 | numerals have lower-case digits and no leading zero of their own |
| TagHeader.ParseTags | ddtrace/tracer/util.go:94-124 | the one-pass parser computes the grammar's reading |
| TagHeader.IsValidPropagatableTag | ddtrace/tracer/util.go:74-92 | the character loops decide validity |
| TagHeader.ValidTagExactly | ddtrace/tracer/util.go:74-92 | valid is nonempty printable ASCII without the two separators, and without spaces in the key |
| TagHeader.ParserAcceptsExactly | ddtrace/tracer/util.go:94-124 | accepted are exactly the empty string and comma-separated lists of nonempty key=value items |
| TagHeader.ItemsRoundTrip | ddtrace/tracer/util.go:94-124 | reading a rendered list of items gives the items |
| TagHeader.Marshal | ddtrace/tracer/textmap.go:277-304 | for every visiting order: all valid tags are written or none, by a condition on the map alone, and so is the recorded error |
| TagHeader.EmittedParsesBack | ddtrace/tracer/textmap.go:277-304 | an emitted header parses to exactly the valid tags |
| TagHeader.EmittedLength | ddtrace/tracer/textmap.go:288-295 | the header's exact length; emitted if and only if it is at most the limit plus one (one tag) or plus two (more) |
| Propagation.ExtractTextMap | ddtrace/tracer/textmap.go:315-355 | the callback loop computes the reading of the headers and stops at the first corrupt one |
| Propagation.ReadAllMeans | ddtrace/tracer/textmap.go:315-375 | for any headers, repeated names included: an error if and only if some value does not parse; otherwise each part of the context is the last value written into it, and the tags are the last ones set less a decision maker erased after them |
| HeaderOrder.OrderIndependentExactly | ddtrace/tracer/textmap.go:29-65 | over carriers with repeated and case-variant names: all orders of the keys give one result if and only if some value does not parse, or no order finds a trace, or keys for the same thing end with the same value and no nonpositive priority, not even an overridden one, stands beside tags that name a decision maker |
| HeaderOrder.DistinctNamesAgree | ddtrace/tracer/textmap.go:315-375 | when no name is repeated, agreement is just that: no nonpositive priority beside tags that name a decision maker |
| HeaderOrder.OverriddenPriorityMatters | ddtrace/tracer/textmap.go:29-43 | a priority sent as 0 and then as 1 ends positive in every order, and still the order decides whether the decision maker survives |
| HeaderOrder.CaseVariantsMatter | ddtrace/tracer/textmap.go:53-65 | two keys that differ in letter case only, with different trace IDs, make the order matter |
| Propagation.DefaultsAreWellFormed | ddtrace/tracer/textmap.go:130-156 | the default header names satisfy what the theorems ask of a configuration |
| Injection.WriteBaggage | ddtrace/tracer/textmap.go:249-274 | baggage is written under prefixed names, in any order |
| Injection.InjectTextMap | ddtrace/tracer/textmap.go:249-274 | refuses exactly zero IDs; otherwise the carrier gains exactly the context's headers, with a tags header that carries all valid tags or none, and records the right error |
| Injection.RoundTrip | ddtrace/tracer/textmap.go:249-375 | injected headers, extracted in any order and letter case, give back IDs, priority, origin, baggage and the valid tags (when the header fits the extraction limit) |
| Injection.ReachableContextRoundTrips | ddtrace/tracer/textmap.go:249-375 | the same for the context of a trace reached by any run from any first trace, new or extracted, provided that the first one was consistent or some priority has been set since |
| B3.ExtractTextMap | ddtrace/tracer/textmap.go:422-458 | the loop computes the reading of the headers and stops at the first corrupt one |
| B3.ReadAllMeans | ddtrace/tracer/textmap.go:422-458 | for any headers: an error if and only if some value does not parse, otherwise the last value of each |
| B3.TraceIdModulo | ddtrace/tracer/textmap.go:429-435 | a hexadecimal trace ID of any length is taken modulo 2^64 |
| B3.LongTraceId | ddtrace/tracer/textmap.go:429-440 | whatever stands before the last sixteen digits of a trace ID is ignored, under the header names in any letter case |
| B3.LongSpanId | ddtrace/tracer/textmap.go:436-440 | a span ID is read whole: one beyond 64 bits is an error |
| B3.InjectTextMap | ddtrace/tracer/textmap.go:396-411 | refuses exactly zero IDs; otherwise writes the padded IDs and the sampled flag |
| B3.RoundTrip | ddtrace/tracer/textmap.go:396-458 | the B3 headers in any order give back the IDs and whether the priority is positive |
| Msgpack.ReadBack | ddtrace/tracer/span_msgp.go:147-278 | every token written, in each format family, is read back with the rest of the bytes untouched |
| Msgpack.FormatBytes | ddtrace/tracer/span_msgp.go:147-278 | the first byte of every value is the one in the formats table of the MessagePack specification |
| Msgpack.TokenizeBack | ddtrace/tracer/span_msgp.go:412-437 | a whole byte stream splits into the tokens that were written |
| SpanEncoder.KeyLiteralIs | ddtrace/tracer/span_msgp.go:147-278 | the key bytes in the generated code are the msgpack strings of the keys |
| SpanEncoder.EncodeSpan | ddtrace/tracer/span_msgp.go:147-278 | the bytes of a map of twelve with the fields in the generated order and the map entries in whatever order they come; a reader that knows the names only as text finds each field under its own |
| SpanWire.SpanIsOnWire | ddtrace/tracer/span_msgp.go:147-278 | under "name", "service" and each of the other ten texts a plain map reader finds that field's value |
| SpanWire.MetaEntry | ddtrace/tracer/span_msgp.go:203-221 | each tag is written as its key followed by its value |
| SpanWire.MetricEntry | ddtrace/tracer/span_msgp.go:222-240 | each metric is written as its key followed by its value |
| SpanWire.DecodesText | ddtrace/tracer/span_msgp.go:32-51 | a text under one of the four names sets that field and no other |
| SpanWire.DecodesNumber | ddtrace/tracer/span_msgp.go:52-135 | a number under one of the six names sets that field and no other |
| SpanWire.DecodesMaps | ddtrace/tracer/span_msgp.go:62-115 | the entries of the two maps are read key first |
| SpanWire.DecodesUnknown | ddtrace/tracer/span_msgp.go:136-140 | an entry under any other name is skipped |
| SpanEncoder.EncodeList | ddtrace/tracer/span_msgp.go:333-352 | the bytes of the list header and of every slot, nil spans included |
| SpanEncoder.EncodeLists | ddtrace/tracer/span_msgp.go:412-437 | the bytes of all lists, which decode to the same lists |
| SpanCodec.DecodeSpanMsg | ddtrace/tracer/span_msgp.go:17-144 | the counted loop over fields computes the decoding function, unknown fields skipped |
| SpanRoundTrip.FieldsBack | ddtrace/tracer/span_msgp.go:17-144 | decoding fields in any order, with repetitions, copies exactly those fields |
| SpanRoundTrip.SpanBack | ddtrace/tracer/span_msgp.go:17-278 | a span decodes to itself whatever the order of its fields and map entries |
| SpanRoundTrip.RoundTrip | ddtrace/tracer/span_msgp.go:368-437 | the bytes of any list of span lists decode to the same lists |
| Payload.PushedIsOneShot | ddtrace/tracer/payload.go:57-119 | for every number of pushes, in all three header forms and across the wrap-around of the count, the stream is byte for byte the one-shot encoding of the array if and only if there was a push |
| Payload.ReadsDeliver | ddtrace/tracer/payload.go:131-139 | what any sequence of reads delivered followed by what is left is the stream |
| Payload.ReadsEverything | ddtrace/tracer/payload.go:131-139 | enough nonempty buffers read exactly the whole stream |
| Payload.PayloadDecodes | ddtrace/tracer/payload.go:57-139 | pushed span lists, read with any buffer sizes, give exactly the bytes of the one-shot encoding of the lists, and these decode to the lists |
| Payload.Buffer.Push | ddtrace/tracer/payload.go:57-64 | the object's stream after a push |
| Payload.Buffer.UpdateHeader | ddtrace/tracer/payload.go:104-119 | the unread header bytes are the array header of the count, in place in the eight-byte array |
| Payload.Buffer.Size | ddtrace/tracer/payload.go:73-75 | the size is the number of unread bytes |
| Payload.Buffer.Read | ddtrace/tracer/payload.go:131-139 | the caller's buffer gets the next bytes and nothing else in it changes; end of stream exactly when nothing is left |
| LogWriter.AcceptableIsLongest | ddtrace/tracer/writer.go:247-303 | the spans kept are the longest prefix without a span too large for an empty buffer |
| LogWriter.LineMayReachLimit | ddtrace/tracer/writer.go:261-281 | a line may be exactly as long as the limit without its newline |
| LogWriter.Writer.WriteTrace | ddtrace/tracer/writer.go:247-284 | a prefix is appended as one more list, or nothing changes; an error exactly when the first span fits no buffer; an empty trace is written as an empty list, unchecked |
| LogWriter.Writer.Flush | ddtrace/tracer/writer.go:311-318 | one line with all buffered traces, or nothing; no span is lost |
| LogWriter.Writer.Add | ddtrace/tracer/writer.go:287-303 | terminates on every trace and appends exactly its longest acceptable prefix to what was written, in order; every line keeps its shape and its size limit |
| LogReader.LineReadsBack | ddtrace/tracer/writer.go:130-146 | reading a line's nested lists gives the buffered chunks in order |
| DurationRounding.NsTimestampToFloat | ddtrace/tracer/stats.go:340-349 | the shift loop terminates and clears exactly the low bits of its least sufficient shift |
| DurationRounding.ShiftIsLeast | ddtrace/tracer/stats.go:340-349 | no smaller shift brings the value down to 1024 |
| DurationRounding.ErrorBound | ddtrace/tracer/stats.go:340-349 | never rounds up, exact up to 1024, loses less than 1/512 above |
| DurationRounding.Monotone | ddtrace/tracer/stats.go:340-349 | longer durations never round to less |
| DurationRounding.Idempotent | ddtrace/tracer/stats.go:340-349 | rounding a rounded duration changes nothing |
| DurationRounding.WorstCase | ddtrace/tracer/stats.go:340-349 | for every shift of two or more some input loses more than 1/1024 |
| DurationRounding.FirstMiss | ddtrace/tracer/stats.go:340-349 | up to 2050 the loss is below 1/1024, and 2051 is the first duration that loses more |
| DurationRounding.ConversionIsExact | ddtrace/tracer/stats.go:348 | the conversion of the result to float64 is exact if and only if the duration is positive or itself representable |
| StatsModel.AlignCovers | ddtrace/tracer/stats.go:77 | an end time is before its bucket's end, and not before its start if and only if it is nonnegative or a multiple of the size |
| StatsModel.SummarySnoc | ddtrace/tracer/stats.go:236-257 | counting a span into a group is what the all-at-once summary of the group gains by it, modulo 2^64 |
| StatsModel.ExportTotal | ddtrace/tracer/stats.go:262-277 | exported and skipped groups together weigh what the bucket held, whatever the visiting order |
| StatsModel.ExportShape | ddtrace/tracer/stats.go:262-277 | without marshalling errors an exported bucket is n blank entries followed by its n groups |
| StatsModel.PayloadTotal | ddtrace/tracer/stats.go:177-210 | for each bucket and key, what a flush sends and skips is what the visited buckets held |
| ConcentratorRuns.Conservation | ddtrace/tracer/stats.go:137-277 | in every run, for each bucket start and key, held plus sent plus skipped statistics equal a direct group-by of the spans added; added and queued spans are the accepted ones; a stopped concentrator holds nothing |
| ConcentratorRuns.StoppedMeansAllSent | ddtrace/tracer/stats.go:151-210 | after Stop, with every sketch marshalled, the payloads alone equal the group-by of all spans added |
| ConcentratorRuns.TickSendsEndedBuckets | ddtrace/tracer/stats.go:177-210 | a periodic flush sends a bucket if and only if its window has ended, keeps the others unchanged, and every span in a sent bucket ended before that time |
| ConcentratorRuns.BucketHoldsEnd | ddtrace/tracer/stats.go:77 | a span's end lies in its bucket's window if and only if it is nonnegative or a multiple of the size |
| ConcentratorObjects.CountSpan | ddtrace/tracer/stats.go:236-257 | the step-by-step counting computes the group's new statistics |
| ConcentratorObjects.ExportBucket | ddtrace/tracer/stats.go:262-277 | the loop visits every group once, in some order, after the blank entries |
| ConcentratorObjects.Concentrator.Add | ddtrace/tracer/stats.go:137-148 | the new buckets |
| ConcentratorObjects.Concentrator.FlushAndSend | ddtrace/tracer/stats.go:177-210 | exactly the due buckets are exported once each and deleted while the map is iterated; an empty payload is not sent |
| ConcentratorObjects.Concentrator.Stop | ddtrace/tracer/stats.go:151-168 | the channel is drained into the buckets before everything is sent; nothing is left; a second stop does nothing |
| KnuthSampler.HashUndone | ddtrace/tracer/sampler.go:67 | multiplying by the Knuth factor modulo 2^64 is a permutation |
| KnuthSampler.SampledShare | ddtrace/tracer/sampler.go:86-91 | at a rate below one exactly floor(rate * 2^64) of the 2^64 IDs are sampled; from one on, all |
| KnuthSampler.RaisingKeeps | ddtrace/tracer/sampler.go:86-91 | a higher rate samples every ID a lower one does, and exactly the difference of the shares more |
| SpanRules.ApplyRules | ddtrace/tracer/rules_sampler.go:352-378 | the loop over the rules applies the first that matches, to the span and to its trace |
| SpanRules.FirstMatchDecides | ddtrace/tracer/rules_sampler.go:352-378 | kept is exactly a span whose first matching rule samples its ID and, if limited, is allowed; a span that matches no rule is untouched |
| SpanRules.OneRuleKeeps | ddtrace/tracer/rules_sampler.go:80-92 | one rule spelled out: kept if and only if service and name pass pattern and exact value, the rate samples the ID, and the limiter, if any, allows |
| SpanRules.MissingFields | ddtrace/tracer/rules_sampler.go:80-92 | a span without a service or a name is matched as if it were empty |
| SpanRules.MarkValues | ddtrace/tracer/rules_sampler.go:352-378 | the values of the sampling metrics: applied rate, mechanism, the limiter's or the rule's rate, and the limit unless zero |
| SpanRules.FinishedSpanKeepsTrace | ddtrace/tracer/span.go:214-223 | on a finished span only the four sampling metrics change, and the trace not at all |
| SpanSampling.SampleAlike | ddtrace/tracer/tracer.go:342-349 | sampling a released span, at any point of any run, changes its four metrics and nothing else, the trace included |
| SpanSampling.SamplingIsInvisible | ddtrace/tracer/rules_sampler.go:352-378 | take the sampling steps out of any run, wherever they stood: the rest is a run that ends with the same trace (priority, tags, lock, decision), chunks, settings and priority metrics |
| Worker.SelectedPositions | ddtrace/tracer/tracer.go:342-349 | the spans kept are those at the positions the rules answered for, in order |
| Worker.KeptIsSubsequence | ddtrace/tracer/tracer.go:338-360 | what is left of a chunk is an ordered subsequence of it |
| Worker.RulesDecide | ddtrace/tracer/tracer.go:338-360 | of a chunk that is not to be kept exactly those spans are written, in order, whose first matching rule samples their ID and, if limited, is allowed |
| Worker.SpansAreConserved | ddtrace/tracer/tracer.go:291-373 | in every run, spans accepted equal spans queued plus written plus dropped; reported and pending counts of dropped spans, dropped chunks and partial chunks agree with the history modulo 2^32; chunks are taken in order and written whole when kept |
| Worker.DrainedBeforeReturn | ddtrace/tracer/tracer.go:310-326 | when the worker returns, everything accepted so far has been written or dropped |
| Worker.FewPushesAfterStop | ddtrace/tracer/tracer.go:362-373 | after stop only pushes that had already passed the check can still be accepted |
| Worker.Tracer.PushTrace | ddtrace/tracer/tracer.go:362-373 | whatever happens between the two selects, a chunk joins the queue exactly when stop was open at the first and there is room at the second |
| Worker.Tracer.SampleFinishedTrace | ddtrace/tracer/tracer.go:338-360 | the spans kept, and by how much each of the three counters moves |
| Worker.Tracer.Drain | ddtrace/tracer/tracer.go:310-326 | the last loop ends with an empty queue, having handed over every chunk in order |
| SqlText.ReplacedExactly | ddtrace/tracer/sqlcomment.go:133-136 | exactly the twenty listed characters are replaced |
| SqlText.ReplaceRoundTrip | ddtrace/tracer/sqlcomment.go:133-136 | replaced text has no structural character and percent-decodes to the original |
| SqlComment.CommentQuery | ddtrace/tracer/sqlcomment.go:141-180 | the builder loop computes the commented query, edge cases included |
| SqlComment.CommentReadsBack | ddtrace/tracer/sqlcomment.go:141-180 | the first closing mark ends the comment, the query follows unchanged, and splitting and decoding the body gives the tags |
| SqlComment.TagsAreSorted | ddtrace/tracer/sqlcomment.go:146-148 | the tags come in strictly increasing key order, and all of them when the keys are the known ones |
| SqlComment.EncodeTraceParent | ddtrace/tracer/sqlcomment.go:109-131 | the padding loops compute the traceparent |
| SqlComment.TraceParentReadsBack | ddtrace/tracer/sqlcomment.go:109-131 | always 55 characters, with both IDs and the flag readable at their fixed places |
| SqlComment.TraceParentInjective | ddtrace/tracer/sqlcomment.go:109-131 | equal traceparents have equal IDs and flags |
| SqlComment.SQLCommentCarrier.Inject | ddtrace/tracer/sqlcomment.go:55-106 | the new query and span ID for every mode, declared or not; a panic, with the query unchanged, exactly in a commenting mode with a context that has no span |
| SqlComment.InjectedReadsBack | ddtrace/tracer/sqlcomment.go:55-180 | in a commenting mode the new query reads back as the injected tags, sorted, followed by the old query |
| SqlComment.FullModeCarriesContext | ddtrace/tracer/sqlcomment.go:62-82 | in full mode a reader of the comment learns the trace ID (or the drawn ID in place of zero), the drawn span ID and whether the priority is positive |
| SqlComment.CommentNamesServices | ddtrace/tracer/sqlcomment.go:83-104 | a reader of the comment finds the database service, each of service, environment and version exactly when nonempty, and a traceparent exactly in full mode |
| SqlComment.QueryKeptExactly | ddtrace/tracer/sqlcomment.go:55-144 | the query survives, panics included, if and only if the mode is a declared one or the query is empty |
| UploadQueue.QueueIsContiguous | profiler/profiler.go:380-415 | in every run the queue is a contiguous run of at most five sequence numbers that ends at the newest batch enqueued |
| UploadQueue.AtMostTwoIterations | profiler/profiler.go:380-398 | no enqueue takes a third turn, however the consumer interferes |
| UploadQueue.ExactlyOnePlace | profiler/profiler.go:289-415 | in every run, exit included, each batch is to come, in hand, queued, evicted, just received, uploaded or discarded: exactly one of these, once |
| UploadQueue.UploadedIffExitOpen | profiler/upload.go:32-42 | a received batch is uploaded if exit is still open when its upload begins, and otherwise discarded, in every continuation |
| UploadQueue.BeforeExit | profiler/profiler.go:401-415 | before exit nothing is discarded: each batch is to come, in hand, queued, evicted, just received or uploaded |
| UploadQueue.AfterExit | profiler/upload.go:32-42 | after exit nothing more is uploaded |
| UploadQueue.ReceivedInOrder | profiler/profiler.go:401-415 | the consumer receives the batches it takes in increasing order, and after them only the zero batch of the closed channel |
| UploadQueue.DiscardedAfterExit | profiler/profiler.go:289-290 | a run in which a batch and then the zero batch are received after exit, and neither is uploaded |
| UploadQueue.UploadsIncrease | profiler/profiler.go:401-415 | in every run batches are uploaded in strictly increasing order, with at most two requests each, and the zero batch never is |
| UploadQueue.EvictsOnlyRecent | profiler/profiler.go:386-389 | an eviction hits one of the five batches before the one being enqueued |
| UploadQueue.Profiler.EnqueueUpload | profiler/profiler.go:380-398 | whatever the consumer takes in between, the loop ends in two turns, evicts at most one batch and only from a queue that was full, and keeps the order of the rest |
| Lists.Combinations | contrib/internal/lists/combinations.go:22-44 | the recursive loops compute the selections |
| Lists.AllSelectionsOnce | contrib/internal/lists/combinations.go:22-44 | for pick >= 1 every selection of increasing positions exactly once, binomial(n, pick) in all; none otherwise |
| ResponseWriters.CasesBySize | contrib/net/http/make_responsewriter.go:23-28 | the cases come by falling size |
| ResponseWriters.SwitchIsExact | contrib/net/http/make_responsewriter.go:65-79 | the first matching case names exactly the implemented interfaces in list order; the default if and only if there are none |
| ResponseWriters.WrapperImplementsTheSame | contrib/net/http/make_responsewriter.go:65-79 | a listed interface is in the chosen case if and only if it is implemented |

## Left out

- HTTP transport, agent discovery, telemetry, remote configuration and profile upload: network I/O.
- Every other integration under contrib, the WAF bindings, the obfuscator and the environment parsing: thin wrappers, foreign code or data.
- newSpanContext, StartSpan and baggage inheritance: the trace model starts with a span that has been created; the fields copied from the parent would only add easy members.
- chainedPropagator: tries its members in turn; the two text-map propagators are modelled singly.
- SetTag's conversions, setTagBool and the error details of setTagError: only the setMeta, setMetric and error flag they end in are modelled.
- TraceRuns.ReleasedSpansAreImmutable: SetUser is modelled for the user ID; its optional tags (email, name, session, role, scope) would add their own keys to the two.
- TraceObjects.Trace.Finish: the span's start, its duration and the offer to the statistics channel are not computed.
- Floating point: metrics are integers in the trace model and 64-bit patterns in the codec; sampling rates are reals, which is exact because the threshold only scales by a power of two; a rate recorded as a metric is written in units of 2^-64; negative rates are not modelled (a negative event rate counts as not sampling).
- DurationRounding.NsTimestampToFloat: the result is an integer; how float64 rounds a negative duration that it cannot represent is not modelled.
- Regular expressions and globs of sampling rules: arbitrary tests on names.
- rateLimiter.allowOne and the library limiter under it: an arbitrary answer with an arbitrary effective rate.
- traceRulesSampler, prioritySampler and the rate table read from the agent: they choose the priority that the trace model takes as given.
- ddsketch and protobuf: a sketch is the multiset of the rounded durations added to it; a failed marshalling is a parameter of the flush.
- LogReader.LineReadsBack: assumes that the text of a span is one JSON object (brackets balance outside strings, first at its end); encodeSpan's own text and its string escaping are not modelled.
- Msgpack.ReadBack: the formats of the msgp library are taken from the MessagePack specification.
- agentTraceWriter, payload.reset and Close: a payload is filled once and read once.
- TokenBucket.PotentialBound: capacities outside 1 to 10^9 are not followed further, and times are unbounded integers, so a gap between two ticks of more than 292 years is not covered.
- ConcentratorRuns.Conservation: a Start while a Stop is still running is not modelled, nor a clock so early that now minus the bucket size underflows.
- UploadQueue.QueueIsContiguous: sequence numbers are unbounded, so the wrap-around of the 64-bit counter is not covered.
- UploadQueue.UploadedIffExitOpen: uploaded means that a request was made; whether the server accepted it, or exit cancelled it under way, is not modelled, nor is the copy written to the output directory.
- SqlComment.CommentReadsBack: strings are bytes; every replaced character is ASCII, so multi-byte text passes through unchanged.
- Lower-casing of header names is modelled for ASCII letters only.
