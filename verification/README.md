# Damen sensor hub: a verified model

This project models the parts of the sensor hub that carry state from one reading to the next, and proves what they
compute over whole runs. `dafny verify dfyconfig.toml` checks all of it.

The files follow the program:

- **Sliding-window statistics.** `Quantities.dfy` has the wrap-around arithmetic of angles, `Weighted.dfy` the algebra
  of weighted means and variances, `Windows.dfy` the direct recomputation over a window of samples, `Statistics.dfy`
  the processor that keeps both up to date by adding each new sample and reversing expired ones. `Readings.dfy` reads
  angles on the real line along the *path* that follows the wrap-around difference from each sample to the next.
  `Exactness.dfy` says for every run exactly when the running form equals the recomputation along that path, and
  `Refinement.dfy` draws the conclusions: always for plain quantities, and for angles under *guards* that are computed
  from the samples. `Circles.dfy` follows runs that go round the circle.
- **Binary sensor protocols.** `Framing.dfy` has what Xsens Xbus and u-blox UBX share: resynchronising on a preamble,
  length-delimited packets, an incomplete tail kept between reads. `Xsens.dfy` and `Ublox.dfy` have encoders,
  checksums and parser objects, `Records.dfy` the record splitter of Xsens data messages.
- **HTTP request parser.** `HttpParser.dfy` has the automaton and the objects it fills, `HttpGrammar.dfy` the
  language as a grammar (sections 5.1, 4.2 and 2.2 of RFC 1945) with the meaning of each message, `HttpLanguage.dfy`
  the equivalence of the two, printing and reading back, and folding.
- **Acceleration peaks.** `AccelerationPeaks.dfy`: combining components into samples, segmenting them into runs, and
  the history of peaks, against a definition over the whole input.
- **Registers.** `Scaling.dfy` has the quantisation to registers, `Modbus.dfy` the plain register map with its cache.
- **USB transfers and clock.** `UsbTransfers.dfy` has the transfer queue and a state machine of submission, completion,
  strand and cancellation steps in every interleaving; `Clocks.dfy` the adjustable clock.
- **Search.** `Search.dfy`: the least occurrence of a run of items.

`Bytes.dfy`, `Numbers.dfy` and `Options.dfy` hold what several of these share.

Objects that change in place are classes, proved against functions; loops of the code are loops here. A ghost field
(`received`, `chunks`) records what an object has been given, and its `Valid()` says that the object's state is the
specified function of that record, so that the lemmas about the function are statements about every run.

## What does not hold as one might expect

Each of these is proved with its exact condition.

- A packet that makes more than 4097 bytes together with the garbage right before it is lost in some chunkings: the
  buffer is dropped by a read that finds more than 4096 bytes in it (`Framing.DeliveredIffFits`). The u-blox length
  field allows packets that do so by themselves (`Framing.PacketDeliveredIffFits`).
- An exchange of two bytes escapes the u-blox checksum when distance times difference is a multiple of 256
  (`Ublox.ExchangeUndetectedIff`).
- Folding a header value before a blank changes the value, since blanks after a fold are dropped
  (`HttpLanguage.FoldingTransparentIff`). The parser also wants exactly one space after the colon of a header and
  takes no tab inside a value, where section 4.2 of RFC 1945 leaves more freedom; the grammar here is the parser's.
- With a negative duration threshold the peak detector stores an empty peak for quiet samples that follow quiet ones,
  unless it stores nothing, takes no sample for quiet or selects no component (`AccelerationPeaks.HistoryIff`).
- A register window that begins in the registers of the end marker reads zero whatever the device holds for it, since
  the cache starts out claiming to hold that quantity (`Modbus.CacheInvisibleIff`). The devices of this repository
  store no sample for the end marker (the u-blox parser filters it out at src/devices/ublox_impl.h:343), so with them
  the cache never shows.
- A scale with min above max and no multiplier, or with a negative multiplier, reverses the order of values
  (`Scaling.MonotoneIff`).
- A USB transfer whose submission or resubmission the library refuses is never freed and its handler never runs
  (`UsbTransfers.QuiescentIff`).
- The statistic of an angle can go wrong, and stay wrong after the samples that made it so have expired. A roll that
  turns once through the circle, 0, 3, -3, 0 at seconds 0 to 3 and then 0 at second 6, leaves two zeroes in a window of
  three seconds and a mean of a third of a turn (`Circles.DoesNotRecover`). What fails is the guard of the addition: the
  average over the last interval is exactly half a turn from the mean (`Circles.FailsAtE`). The condition is exact for
  every run (`Exactness.RightExactly`): from one step to the next a right statistic stays right as long as the guards
  hold, every statistic is reset by a window of one sample, and otherwise it is right only if the errors of mean and
  variance cancel, which the stored numbers decide and which does happen (`Circles.HealedRun`). The guards do not need
  the samples to fit in an arc (`Circles.SteadyTurn`). For two samples exactly half a turn apart, the average that is
  reversed is not the one that was added (`Readings.ReversedMatches`).

Doubles are modelled as real numbers, bytes and words as integers with explicit remainders, pi as the constant
M_PI. Clocks, the network, USB events and the memory allocator are parameters and events.

## Model

| member | source | states |
|---|---|---|
| Exactness.RightExactly | src/processors/statistics.h:71-140 | For every run of every quantity, without further condition: n, mean and variance are those recomputed along the path of the retained samples exactly when, step by step from the first sample on, the last sample was left alone, or the statistic was right before and each addition and reversal was guarded (the average no more than half a turn from the mean, the two means of a reversal no more than half a turn apart, the two oldest samples not exactly half a turn apart), or the errors of mean and variance cancelled. |
| Exactness.RefinesExactly | src/processors/statistics.h:71-140 | When the retained samples fit in an arc shorter than half a turn, that is exactly when the statistic is the one recomputed from every reading of them within such an arc. |
| Exactness.AngularExactly | src/processors/statistics.h:71-140 | The same in the stored numbers: along any path of the retained samples, within an arc or not, stored variance and, up to whole turns, stored mean are those of the path exactly under that condition. |
| Refinement.RunRefines | src/processors/statistics.h:71-140 | After any guarded run (a condition on the samples alone, the guards of every step since the window last held one sample), n, mean and variance are those recomputed from the retained samples, read in any way within an arc. |
| Refinement.GuardedRight | src/processors/statistics.h:71-140 | Along a guarded run the statistic is right along the path of the retained samples, however far they spread. |
| Refinement.TrackedGuarded | src/processors/statistics.h:92-136 | A run whose windows with their new samples all fit in an arc is guarded, and its last window fits. |
| Refinement.TrackedRefines | src/processors/statistics.h:71-140 | So after such a run the statistic is the one recomputed from the retained samples. |
| Refinement.LinearRefinement | src/processors/statistics.h:71-140 | For a quantity that is not an angle, without condition: n, mean and variance equal the recomputation over the unexpired accepted samples; the variance is never negative and the mean lies between any bounds of the window. |
| Refinement.AngularRefinement | src/processors/statistics.h:92-136 | For an angle, along a guarded run: the stored variance equals that of every path of the window, is not negative, and the stored mean is the mean of the path up to whole turns. |
| Refinement.AddKeepsExactly | src/processors/statistics.h:92-111 | Within an arc no errors cancel: adding a sample to two or more makes no right statistic wrong and no wrong one right. |
| Exactness.InsertExactly | src/processors/statistics.h:92-139 | One call ends with a right statistic exactly when it leaves one sample, or its addition and reversals lead there from a right or wrong one. |
| Exactness.AddExactly | src/processors/statistics.h:92-111 | A statistic is right after a sample is added exactly when it was right and the average is no more than half a turn from the mean, or the errors cancel; for windows of any spread. |
| Exactness.AddScales | src/processors/statistics.h:104-110 | Adding a sample scales the error of the stored mean by span over span plus interval; the variance becomes what the wrap-around differences of the readings give. |
| Exactness.DropExactly | src/processors/statistics.h:125-135 | A statistic is right after the oldest sample is dropped exactly when it was right and the reversal is guarded, or the errors cancel; for windows of any spread. |
| Exactness.DropScales | src/processors/statistics.h:126-135 | Dropping the oldest sample scales the error of the stored mean by span plus interval over span, less what the reversed average is off when the two oldest samples are exactly half a turn apart. |
| Exactness.DropGuardIff | src/processors/statistics.h:126-135 | The guard of a reversal holds exactly when the average that is reversed is the one that was added, its difference from the mean is the plain one, and so is that of the two means but for its sign. |
| Exactness.ExpireExactly | src/processors/statistics.h:114-136 | Expiry that leaves two or more samples ends right exactly when its reversals lead there, one after the other. |
| Exactness.NoErrorIff | src/processors/statistics.h:106 | The stored mean enters an update without error exactly when it is right and the average is no more than half a turn from it. |
| Exactness.RunSingle | src/processors/statistics.h:84-90 | In every run, a window of one sample has that sample as its mean, unnormalised, variance zero and n one. |
| Readings.UnwrapIsPath | src/quantities.h:441-458 | Following the wrap-around differences from each sample to the next gives a path, for any samples. |
| Readings.PathsDifferByTurns | src/quantities.h:441-458 | Two paths of the same samples differ by one common number of whole turns. |
| Readings.RightIff | src/processors/statistics.h:92-136 | A statistic that is right represents every path of the retained samples. |
| Readings.LiftableIff | src/quantities.h:441-458 | Samples can be read within an arc shorter than half a turn exactly when their path stays within one. |
| Readings.RefinesIff | src/processors/statistics.h:92-136 | For samples that fit in an arc, being right and refining the direct recomputation are the same. |
| Readings.AverageMatches | src/processors/statistics.h:99-104 | The average over an interval, taken as the new value less half the wrap-around difference, is the plain average of the readings. |
| Readings.ReversedMatches | src/processors/statistics.h:128 | The average that is reversed is the one that was added, unless the two samples are exactly half a turn apart: then it is half a turn off. |
| Circles.DoesNotRecover | src/processors/statistics.h:92-136 | A run of five roll samples through a full circle: the two that are left are zero and fit in an arc, all others have expired, and the stored mean is a third of a turn. |
| Circles.FailsAtE | src/processors/statistics.h:106 | In that run the statistic is right up to the fourth sample, whose window does not fit in an arc, and wrong after the fifth, whose average is exactly half a turn from the mean. |
| Circles.SteadyTurn | src/processors/statistics.h:92-111 | Roll samples 0, 1.5, 3 and 4.5 a second apart do not fit in an arc, are guarded, and have the right statistic along their path. |
| Circles.RightThoughNotTracked | src/processors/statistics.h:92-136 | A run of three roll samples that do not fit in an arc, guarded at every step, after which the two that are left have the right statistic. |
| Circles.HealedRun | src/processors/statistics.h:92-136 | A run of five roll samples whose statistic is wrong after the fourth and right after the fifth, with three samples held: errors do cancel in reachable states. |
| Statistics.RunNormalRange | src/processors/statistics.h:104-132 | With two or more samples held the mean of an angle lies in the normal range of its quantity, whether or not the samples fit in an arc. |
| Statistics.RunWindow | src/processors/statistics.h:84-138 | In every reachable state the retained list is the unexpired part of the accepted samples, and n is its length. |
| Windows.UnexpiredIsLongestSuffix | src/processors/statistics.h:113-116 | Exactly the accepted samples within the period of the newest one are retained, and the newest always is. |
| Windows.UnexpiredSnoc | src/processors/statistics.h:111-116 | Expiring before and after a new sample retains the same samples as expiring once over all of them. |
| Statistics.Accepted | src/processors/statistics.h:93-97 | The accepted samples have strictly increasing stamps, and there is one as soon as anything was inserted. |
| Statistics.AcceptedIff | src/processors/statistics.h:94-97 | A sample is accepted exactly when it is newer than every sample before it. |
| Statistics.InsertSamples | src/processors/statistics.h:84-138 | One call appends a newer sample and expires the oldest ones, and ignores a sample that is not newer. |
| Statistics.ExpireToOne | src/processors/statistics.h:118-123 | When a single sample remains the statistic is that sample, whatever it was before. |
| Statistics.Processor.InsertValue | src/processors/statistics.h:71-140 | Keeps, for every quantity, list and statistic equal to the run over everything received for it; quantities outside a non-empty filter are ignored. |
| Statistics.Processor.InsertInto | src/processors/statistics.h:84-139 | The body with its expiry loop and early returns ends, never divides by zero, and computes one step of the run. |
| Statistics.Processor.Update | src/processors/statistics.h:92-111 | The statements that take a new sample into mean and variance compute the added statistic. |
| Statistics.Processor.Reverse | src/processors/statistics.h:125-135 | The statements that take the oldest sample out compute the reversed statistic, with a span that is not zero. |
| Statistics.Processor.constructor | src/processors/statistics.h:69 | A new processor holds nothing. |
| Windows.WindowAdd | src/processors/statistics.h:92-110 | The update formulas applied to the mean and variance of a window give those of the window with one more sample. |
| Windows.WindowDrop | src/processors/statistics.h:125-135 | The reversal formulas give the mean and variance of the window without its oldest sample. |
| Windows.WindowBounds | src/processors/statistics.h:99-110 | The mean of a window lies between its smallest and largest value and its variance is not negative. |
| Windows.WindowShifted | src/quantities.h:441-458 | Adding a constant to all samples moves the mean by it and leaves the variance alone. |
| Weighted.AddInterval | src/processors/statistics.h:106-110 | Adding one weighted interval to a running mean and variance gives the moments of the longer list. |
| Weighted.DropInterval | src/processors/statistics.h:132-135 | Reversing the first interval out of mean and variance gives the moments of the rest. |
| Weighted.ParallelAxis | src/processors/statistics.h:108-110 | The second moment about any point is that about the mean plus the squared distance, weighted with the total. |
| Weighted.MomentsUnique | src/processors/statistics.h:104-110 | Mean and variance of a list of weighted intervals are determined by the list. |
| Quantities.ValueNorm | src/quantities.h:418-439 | For longitude, roll, pitch and yaw ends in [-pi, pi), for heading and course in [0, 2 pi), each by whole turns; every other quantity is left alone. |
| Quantities.ValueDiff | src/quantities.h:441-458 | For those six quantities the difference in [-pi, pi) that is congruent to the plain one; for every other the plain one. |
| Quantities.AngularIff | src/quantities.h:67-92 | The six angles by name and by their places in the enumeration. |
| Quantities.Reduce | src/quantities.h:424-428 | The two loops end and find the representative of a direction in the half-open turn from the lower bound. |
| Quantities.WrapIs | src/quantities.h:418-458 | Whatever is congruent to a value and lies in the turn from a bound is the wrapped value. |
| Quantities.DiffMatches | src/quantities.h:441-458 | The wrap-around difference of two angles is the difference of readings less than half a turn apart. |
| Quantities.NormMatches | src/quantities.h:418-439 | Normalising keeps the direction and ends in the normal range. |
| Framing.DecodeStream | src/devices/xsens_impl.h:523-562 | Decoding packets with garbage between them, which may end in the first byte of a preamble, gives exactly those packets in order and keeps the rest, when the stream ends in garbage or inside a packet; for both protocols and every payload size. |
| Framing.NoneExactly | src/devices/xsens_impl.h:508-524 | A buffer holds no complete packet exactly when it is the beginning of garbage followed by a packet. |
| Framing.ChunkingIndependence | src/parser.h:52-60 | However the bytes are split over reads, packets and remaining bytes are those of one read, when no read begins over the limit. |
| Framing.DecodeConcat | src/devices/xsens_impl.h:557-561 | Decoding a prefix and then its rest with what follows equals decoding the whole. |
| Framing.ParseExtends | src/devices/xsens_impl.h:516-524 | A packet that was found complete is found unchanged when more bytes follow. |
| Framing.BufferBound | src/parser.h:53-56 | In all runs the buffer holds at most 0x1000 bytes plus the last chunk. |
| Framing.IncompleteSegment | src/devices/xsens_impl.h:523-554 | A proper prefix of garbage and packet yields nothing and is kept whole. |
| Framing.PrefixRest | src/parser.h:53-56 | Every prefix of a stream of packets that fit leaves at most the limit in the buffer. |
| Framing.FittingStreamNoOverflow | src/parser.h:53-56 | No chunking of a stream of packets that fit makes a read begin over the limit. |
| Framing.Delivery | src/parser.h:52-60 | Packets that fit, with garbage between them, arrive complete and in order in every chunking, and the rest, up to the limit, stays in the buffer. |
| Framing.FramesDelivered | src/parser.h:52-60 | In every chunking the packets found are the packets sent, whether the stream ends in garbage of any length or inside a packet that fits. |
| Framing.GarbageReads | src/parser.h:52-60 | Reads of garbage behind the last packet, even when the buffer is dropped in between, find no packets and leave an end of the garbage. |
| Framing.DeliveredIffFits | src/parser.h:53-55 | A packet behind garbage arrives in every chunking exactly when garbage and packet together are no longer than the limit plus one byte. |
| Framing.PacketDeliveredIffFits | src/parser.h:53-55 | So a packet with nothing before it arrives in every chunking exactly when it is no longer than the limit plus one byte. |
| Framing.ParseSegment | src/devices/xsens_impl.h:516-524 | The packet rule finds the packet after garbage without a preamble, and ends right behind it. |
| Framing.FindSync | src/devices/xsens_impl.h:510-513 | The junk rule stops at the first preamble, and at no place before it is there one. |
| Framing.SkipJunk | src/devices/xsens_impl.h:512-513 | The loop of the junk rule stops at the first preamble or at the end. |
| Framing.ParseAtParts | src/devices/xsens_impl.h:514-517 | A packet that is found consists of the bytes in its place, with the payload size its header says. |
| Framing.XsensBytes | src/devices/xsens_impl.h:508-517 | The bytes 0xFA 0xFF, identifier, length, payload and check byte decode to that packet. |
| Framing.UbloxBytes | src/devices/ublox_impl.h:479-487 | The bytes 0xB5 0x62, class, identifier, length in little-endian order, payload and two check bytes decode to that packet. |
| Records.SplitContent | src/devices/xsens_impl.h:372-434 | Splitting records that were sent gives them back in order, known ones with their bytes; a truncated last one leaves exactly its bytes. |
| Records.SplitAligned | src/devices/xsens_impl.h:372-434 | Any content is split at record boundaries: the records and the rest are the whole content, and the rest is not a complete record. |
| Records.TruncatedIncomplete | src/devices/xsens_impl.h:376 | A proper prefix of a record is not a complete record. |
| Records.ParseRecord | src/devices/xsens_impl.h:407-434 | Each step takes at least three bytes and stays within the content. |
| Records.ParseRaw | src/devices/xsens_impl.h:376-419 | A known identifier with another length than its own falls through to the rule that skips, and both rules end at the same place. |
| Records.ListedExactly | src/devices/xsens_impl.h:369-419 | A record comes with its bytes exactly when its two identifier bytes and its length are in the list of eleven, and is skipped otherwise. |
| Xsens.Checksum | src/devices/xsens.h:61-69 | The loop computes the byte that brings the sum of all bytes after the first to zero. |
| Xsens.PacketHead | src/devices/xsens.h:71-74 | Preamble and message identifier. |
| Xsens.Packet | src/devices/xsens.h:76-81 | The packet for a command of up to 255 bytes is the wire form of a valid frame; for a longer one the length byte is the low byte of the size. |
| Xsens.EncodedAccepted | src/devices/xsens.h:61-81 | Frames built by the encoder pass the check of the parser. |
| Xsens.AcceptedIff | src/devices/xsens_impl.h:498-527 | A frame passes the check exactly when all its bytes after the first of the preamble add up to zero modulo 256. |
| Xsens.PacketBytes | src/devices/xsens.h:61-81 | The encoder sends 0xFA 0xFF, identifier, length, command and the byte that brings the sum to zero. |
| Xsens.DataMessage | src/devices/xsens_impl.h:527-544 | Records are read exactly from the accepted frames with identifier 0x36. |
| Xsens.SubstitutionDetected | src/devices/xsens_impl.h:519-531 | A change of any single payload byte is detected. |
| Xsens.RecordsDelivered | src/devices/xsens_impl.h:495-562 | The records in the data messages sent are the records read, whatever the garbage between the messages, the end of the stream and the chunking. |
| Xsens.XsensParser.TakeContent | src/devices/xsens_impl.h:508-515 | The content rule takes exactly as many bytes as the header said and succeeds exactly when there were that many. |
| Xsens.XsensParser.FindPacket | src/devices/xsens_impl.h:498-524 | The rule with its actions finds what the packet rule finds, with the sum over everything from the second preamble byte. |
| Xsens.XsensParser.ParseSingle | src/devices/xsens_impl.h:495-555 | Consumes one packet and hands on the records of an accepted data message; without a complete packet nothing changes. |
| Xsens.XsensParser.Parse | src/devices/xsens_impl.h:557-561 | Decodes the whole buffer, keeping what is left. |
| Xsens.XsensParser.AddAndParse | src/parser.h:52-60 | One read keeps buffer and values equal to those of all chunks read so far. |
| Xsens.XsensParser.constructor | src/parser.h:44 | A new parser has an empty buffer. |
| Ublox.CalcChecksum | src/devices/ublox.h:347-356 | The two accumulators have the closed form of plain sum and sum weighted with the distance to the end, modulo 256. |
| Ublox.SubstitutionDetected | src/devices/ublox.h:292-294 | Replacing any single byte by another makes a packet fail its check. |
| Ublox.ExchangeUndetectedIff | src/devices/ublox.h:292-356 | An exchange of two bytes goes unnoticed exactly when distance times difference is a multiple of 256 and the length field keeps its value. |
| Ublox.OddExchangeDetected | src/devices/ublox.h:292-356 | An exchange of two unequal bytes an odd distance apart is always detected. |
| Ublox.ExchangeSums | src/devices/ublox.h:347-356 | An exchange leaves the plain sum and changes the weighted one by distance times difference. |
| Ublox.EncodedChecks | src/devices/ublox.h:366-372 | A packet set up with up to 65535 payload bytes is a valid frame and passes its own check. |
| Ublox.AcceptedIff | src/devices/ublox.h:292-356 | A frame passes the check exactly when its length field is the payload size, its first check byte the sum of head and payload and its second the sum of the sums of their beginnings, modulo 256. |
| Ublox.PacketBytes | src/devices/ublox.h:288-372 | The encoder sends 0xB5 0x62, class, identifier, length in little-endian order, payload and those two check bytes. |
| Ublox.PacketsDelivered | src/devices/ublox_impl.h:462-510 | The packets sent are the packets handed to the payload parser, whatever the garbage between them, the end of the stream and the chunking. |
| Ublox.DataPacket.constructor | src/devices/ublox.h:251-253 | An empty packet has four zero bytes and checksum zero. |
| Ublox.DataPacket.WithPayload | src/devices/ublox.h:366-372 | Class, identifier, length and payload are laid out in that order, and the checksum is over all of them. |
| Ublox.DataPacket.SetDataByte | src/devices/ublox.h:378-383 | Writes one byte, extending with zeros as far as needed, and changes nothing else. |
| Ublox.DataPacket.SetLength | src/devices/ublox.h:315-319 | Writes the length as a little-endian word and leaves the other bytes. |
| Ublox.DataPacket.AddData | src/devices/ublox.h:321-324 | Appends a byte. |
| Ublox.DataPacket.Clear | src/devices/ublox.h:331-336 | Returns to the state of an empty packet. |
| Ublox.DataPacket.Check | src/devices/ublox.h:292-294 | Accepts exactly when length field and checksum are those of the data. |
| Ublox.DataPacket.GetPacket | src/devices/ublox.h:288-290 | Gives the wire form of the frame that carries data and checksum. |
| Ublox.UbloxParser.TakeContent | src/devices/ublox_impl.h:474-484 | The content rule moves exactly as many bytes as the header said and succeeds exactly when there were that many. |
| Ublox.UbloxParser.FindPacket | src/devices/ublox_impl.h:466-491 | The rule with its actions finds what the packet rule finds and leaves it in the packet. |
| Ublox.UbloxParser.Parse | src/devices/ublox_impl.h:490-509 | Decodes the whole buffer and hands on the packets that pass their check. |
| Ublox.UbloxParser.AddAndParse | src/parser.h:52-60 | One read keeps buffer and packets equal to those of all chunks read so far. |
| Ublox.UbloxParser.constructor | src/parser.h:44 | A new parser has an empty buffer. |
| HttpLanguage.AcceptsExactly | src/http.cpp:486-495 | From a fresh parser, a text is accepted with all of it used exactly when it is a message of the grammar, and the request is what the message means. |
| HttpLanguage.RejectsExactly | src/http.cpp:536-742 | A text is rejected exactly when it neither begins with a message nor is the beginning of one. |
| HttpLanguage.UnfinishedExactly | src/http.cpp:486-495 | A text is unfinished exactly when more characters can make it a message. |
| HttpLanguage.BeginsWithMessage | src/http.cpp:486-495 | A text that begins with a message is accepted at the last character of that message. |
| HttpLanguage.Complete | src/http.cpp:536-742 | A fresh parser accepts every message of the grammar and fills in its meaning. |
| HttpGrammar.Sound | src/http.cpp:536-742 | Whatever a fresh parser accepts is a message of the grammar, and the request is its meaning. |
| HttpGrammar.StepReads | src/http.cpp:536-742 | Every character that is not rejected extends the partial message read so far, and the request follows its meaning. |
| HttpGrammar.RunReads | src/http.cpp:486-495 | The same for a run from any state. |
| HttpLanguage.Completion | src/http.cpp:509-531 | Every state of the automaton can still reach acceptance. |
| HttpLanguage.RoundTrip | src/http.cpp:486-495 | A printed request is read back unchanged in every chunking. |
| HttpLanguage.FoldingTransparent | src/http.cpp:663-728 | A fold inside a value before a character that is not a blank changes neither the verdict nor the request. |
| HttpLanguage.FoldingTransparentIff | src/http.cpp:681-728 | A fold inside a value before a given character goes unnoticed whatever follows that character, exactly when the character is not a blank. |
| HttpLanguage.DecimalDigits | src/http.cpp:617-654 | The version numbers read from decimal digits are the numbers printed. |
| HttpParser.RunConcat | src/http.cpp:486-495 | A run over two texts is the run over the first, continued over the second unless it has decided. |
| HttpParser.RunChunksIsRun | src/http.cpp:486-495 | The outcome does not depend on how the text arrives. |
| HttpParser.Step | src/http.cpp:536-742 | In every state that adds to a header there is a header to add to. |
| HttpParser.Run | src/http.cpp:486-495 | The run stops at the first decision, and uses everything when there is none. |
| HttpParser.RequestParser.Consume | src/http.cpp:536-742 | Changes state and request as the automaton says for one character. |
| HttpParser.TokenIff | src/http.cpp:745-766 | The characters of a token are exactly the letters, the digits and fifteen listed others. |
| HttpParser.CtlIff | src/http.cpp:750-752 | What is not a control character is exactly the space, the visible characters and what is above 127. |
| HttpParser.DigitIff | src/http.cpp:768-770 | The digits are exactly the ten, with their values. |
| HttpLanguage.PrintedAgain | src/http.cpp:486-495 | Every request that the parser accepts is valid, and printed it is read back unchanged in every chunking. |
| HttpParser.RequestParser.Parse | src/http.cpp:486-495 | Result, end position, state and request are those of the run. |
| HttpParser.RequestParser.Reset | src/http.cpp:480-482 | Returns to the initial state. |
| HttpParser.RequestParser.constructor | src/http.cpp:478 | A new parser is in the initial state. |
| HttpParser.RequestParser.PushName | src/http.cpp:706 | Adds to the name of the last header. |
| HttpParser.RequestParser.PushValue | src/http.cpp:694 | Adds to the value of the last header. |
| HttpParser.Request.constructor | src/http.cpp:39-45 | A new request is empty; its version numbers are arbitrary. |
| AccelerationPeaks.AccelerationHistory.PeaksAreHistory | src/processors/acceleration_history.h:140-198 | The stored peaks are the newest item_count of those of all long maximal runs in everything received, newest first. |
| AccelerationPeaks.HistoryIff | src/processors/acceleration_history.h:188-194 | For all well-stamped sequences of selected components the stored peaks are the long maximal runs, exactly when the duration threshold is not negative, nothing is stored, no sample is quiet, or no component is selected. |
| AccelerationPeaks.RecordedIsHistory | src/processors/acceleration_history.h:163-196 | What is recorded at quiet samples, one after the other, are the peaks of the long maximal runs. |
| AccelerationPeaks.ClosedRunsAreMaximal | src/processors/acceleration_history.h:163-196 | The runs that the detector closes are exactly the maximal runs of samples over the threshold that a quiet sample follows. |
| AccelerationPeaks.ClosedRunsNewestFirst | src/processors/acceleration_history.h:190 | They are listed from the newest to the oldest, without overlap. |
| AccelerationPeaks.HistoryRuns | src/processors/acceleration_history.h:188-194 | The history is the list of the peaks of all maximal runs that last longer than the threshold, one for each, from the newest run to the oldest. |
| AccelerationPeaks.HistoryContains | src/processors/acceleration_history.h:188-194 | A peak is in the history exactly when it is that of a maximal run that lasts longer than the threshold. |
| AccelerationPeaks.StoredMoments | src/processors/acceleration_history.h:163-190 | A stored peak: start and duration are those of the run; mean and squared rms times duration are the weighted sums over it, squared rms is at least the squared mean; the peak is one of the amplitudes, and no other exceeds it. |
| AccelerationPeaks.RunMoments | src/processors/acceleration_history.h:163-185 | The same for a run that is still open, with the mean square. |
| AccelerationPeaks.RunPeakSnoc | src/processors/acceleration_history.h:171-185 | Taking one more loud sample into the current peak computes the peak of the longer run. |
| AccelerationPeaks.LargestIs | src/processors/acceleration_history.h:172-174 | The peak is the first of the amplitudes that are largest in absolute value. |
| AccelerationPeaks.CurrentPeakSnoc | src/processors/acceleration_history.h:163-196 | A sample starts, extends or ends the current peak as it does the run. |
| AccelerationPeaks.SamplesOrdered | src/processors/acceleration_history.h:83-102 | Combined samples keep the order of the components they are made of. |
| AccelerationPeaks.CombinedMeans | src/processors/acceleration_history.h:140-160 | With direction 1, 2 or 4 the amplitude of a combined sample is that component, with its sign, and otherwise the length of the vector of all three; the square goes with it, and the stamp is that of the newest component. |
| AccelerationPeaks.SelectedIff | src/processors/acceleration_history.h:73-100 | The three lowest bits of the direction select the components. |
| AccelerationPeaks.SlotIs | src/processors/acceleration_history.h:84-101 | A component that has come since the last combined sample is held, and one that has not is zero. |
| AccelerationPeaks.CombinedIs | src/processors/acceleration_history.h:160 | The largest stamp of the collected components is that of the newest. |
| AccelerationPeaks.EventTaken | src/processors/acceleration_history.h:83-102 | A component that is already held completes the group and makes a sample; any other joins the group. |
| AccelerationPeaks.AccelerationHistory.InsertValue | src/processors/acceleration_history.h:83-102 | Keeps current peak, stored peaks and held components equal to those of everything received; unselected quantities are ignored. |
| AccelerationPeaks.AccelerationHistory.HandleValue | src/processors/acceleration_history.h:140-198 | Brings current peak and history from the samples so far to those with the combined sample, and clears the components. |
| AccelerationPeaks.AccelerationHistory.Extend | src/processors/acceleration_history.h:163-186 | The statements for a loud sample start or extend the current peak. |
| AccelerationPeaks.AccelerationHistory.Complete | src/processors/acceleration_history.h:84-101 | A component that is already held makes the collected components a sample first. |
| AccelerationPeaks.AccelerationHistory.constructor | src/processors/acceleration_history.h:77-80 | A new detector has no current peak, no history and no components. |
| Scaling.ScaleTo | src/quantities.h:652-684 | The statements compute the register of the quantity, also when an empty range makes the position infinite, and zero for an unknown quantity. |
| Scaling.UnsignedRegisterIff | src/quantities.h:657-674 | Without sign and multiplier, min below max: the register is k exactly when the value lies in the k-th of 2^N equal steps from min to max, the first and last step reaching on without end. |
| Scaling.UnsignedDecodes | src/quantities.h:666-674 | Its value read back is at most one step below the value written, from min to before max. |
| Scaling.UnsignedRises | src/quantities.h:657-674 | A larger value never gets a smaller unsigned register when min is below max or the multiplier positive. |
| Scaling.UnsignedFixedPoint | src/quantities.h:661-674 | With a multiplier and no sign, the register is the scaled distance from the offset, rounded down, counted from the middle of the range and cut off at its ends. |
| Scaling.CellIff | src/quantities.h:657-674 | For a rising range of any scale and width, the unsigned register is k exactly when the value lies in the k-th of 2^N equal steps, the first and last step reaching on without end. |
| Scaling.CellAtLeastIff | src/quantities.h:666-674 | The unsigned register is at least k exactly when the value is at least k steps above the low end. |
| Scaling.DecodesWithinStep | src/quantities.h:666-674 | Inside the range, reading the register back gives a value at most one step below the one written. |
| Scaling.MonotoneIff | src/quantities.h:657-674 | Among the values that have a result, a larger one never gets a smaller unsigned register, exactly when the multiplier is positive or, without one, min is not above max. |
| Scaling.SignedIsTwosComplement | src/quantities.h:676-678 | Flipping the top bit gives the two's complement of the register counted from the middle of the range. |
| Scaling.SignedFixedPoint | src/quantities.h:661-678 | With any multiplier, a signed register holds the two's complement of the scaled distance from the offset, rounded down and saturated to N bits. |
| Scaling.TopBit16 | src/quantities.h:626-629 | On 16 bits, exclusive or with the top bit is what signed registers apply. |
| Scaling.TopBit32 | src/quantities.h:626-629 | The same on 32 bits. |
| Modbus.PlainMap | src/modbus.cpp:38-58 | The loop with its cached quantity and sample fills the first count values with the window of registers and leaves the others. |
| Modbus.CacheInvisibleIff | src/modbus.cpp:40-49 | Every window equals the lookup of each register by itself, exactly when the device holds nothing but zero for the end marker that the cache starts with. |
| Modbus.WindowIsLookup | src/modbus.cpp:38-58 | A window that does not begin in the end marker's registers equals the lookup of each register by itself. |
| Modbus.WindowsConcatenate | src/modbus.cpp:38-58 | Two adjacent windows give the registers of the window over both. |
| Modbus.SampleRead | src/modbus.cpp:50-55 | The eight registers of a quantity, reassembled, are the 64-bit patterns of value and stamp of its newest sample. |
| Modbus.AppendedRead | src/device.h:136-143 | After a sample is appended to a quantity its registers reassemble to that sample, and all windows beside them stay as they were. |
| Modbus.TransparentIff | src/modbus.cpp:40-49 | The windows that the cache may falsify are those that begin at registers 624 to 631. |
| Modbus.Reassembled | src/modbus.cpp:51-55 | The four 16-bit parts of a pattern, most significant first, put together are the pattern. |
| Modbus.GetSample | src/device.h:136-143 | The newest sample of a quantity, or zero when there is none. |
| Search.ContainsAt | src/tools.h:73-104 | The least index at which the items occur contiguously, or -1 exactly when they occur nowhere; giving up when the container ends in a partial match loses nothing. |
| Search.Mismatch | src/tools.h:95-98 | One item out of place rules an occurrence out. |
| UsbTransfers.Lifecycle | src/usb.h:79-113 | Over all interleavings: every operation's handler runs at most once; the slots that are not null are exactly the transfers not yet handled, in order of submission; the first slot is not null. |
| UsbTransfers.RunKeeps | src/usb.h:185-289 | Every reachable state satisfies the invariant: each transfer in memory is in flight, posted or refused, and only one of these. |
| UsbTransfers.SubmitKeeps | src/usb.h:270-289 | Submission keeps the invariant, accepted or refused. |
| UsbTransfers.CompleteKeeps | src/usb.h:185-236 | Completion on the event thread keeps the invariant, by resubmission or by posting. |
| UsbTransfers.StrandKeeps | src/usb.h:162-168 | The strand step keeps the invariant. |
| UsbTransfers.FreedOnlyWhenHandled | src/usb.h:85-100 | A transfer is freed only in the strand step that runs its handler, and never while in flight. |
| UsbTransfers.DeliveredInOrder | src/usb.h:156-169 | Handlers run in the order of completion, each with the error code and byte count of its own completion; a resubmission delivers nothing. |
| UsbTransfers.DeliveredExactly | src/usb.h:156-236 | Behind what there was before, handlers are run with, or about to be, one result for each completion but the successful ones without a byte, in their order: of its transfer, with the smaller of transferred length and buffer size, and the error code that its status stands for. |
| UsbTransfers.QuiescentIff | src/usb.h:185-289 | When nothing is in flight or posted, the queue is empty, and every operation handled, exactly when the run contains no refused submission and no refused resubmission of a transfer that brought no bytes. |
| UsbTransfers.LostExactly | src/usb.h:224-289 | Transfers are lost exactly by refused submissions and resubmissions. |
| UsbTransfers.DrainExactly | src/usb.h:102-110 | Every run of completions without resubmission and strand steps takes at most two steps for each transfer in flight and one for each posted result, and leaves nothing in flight or posted exactly when it has taken them all. |
| UsbTransfers.DrainProgress | src/usb.h:102-110 | While something is in flight or posted, such a step can be taken. |
| UsbTransfers.Drain | src/usb.h:102-110 | From every state such steps lead to nothing in flight and nothing posted. |
| UsbTransfers.LiveDeleted | src/usb.h:85-100 | Deleting by address takes exactly the transfers with that address out of the queue and leaves no null slot in front. |
| UsbTransfers.WithoutOne | src/usb.h:85-92 | With addresses distinct, deleting by address takes out the one transfer that has it. |
| UsbTransfers.TransferQueue.NewTransfer | src/usb.h:80-83 | Appends a slot with the new transfer. |
| UsbTransfers.TransferQueue.DeleteTransfer | src/usb.h:85-100 | The two loops null the slots with the address and pop the null slots in front. |
| UsbTransfers.TransferQueue.Cancel | src/usb.h:102-110 | Cancellation is requested for exactly the transfers in the queue, in order. |
| UsbTransfers.TransferQueue.constructor | src/usb.h:79 | A new queue is empty. |
| Clocks.NeverBack | src/datetime.cpp:45-48 | However the clock is steered and the system clock set, the times returned never decrease. |
| Clocks.TimesAreMaxima | src/datetime.cpp:75-80 | Every time returned is the largest of zero (the initial value) and all clock readings up to that call. |
| Clocks.ErrorShrinks | src/datetime.cpp:50-56 | After k adjustments towards a source at a constant offset from the system clock, the error is the initial one times (1 - rate)^k, at whatever times they are made and the clock is read. |
| Clocks.ErrorLeft | src/datetime.cpp:50-60 | The same for adjustments by a difference and when the rate is set in between: every adjustment takes off the fraction that the rate set last says. |
| Clocks.SteeredBy | src/datetime.cpp:50-56 | Adjusting by the difference to a time is adjusting towards it. |
| Clocks.NearerIff | src/datetime.cpp:50-56 | An adjustment brings a clock that is wrong nearer to its source exactly for rates between zero and two. |
| Clocks.Clock.Time | src/datetime.cpp:45-48 | Returns the larger of the reading and the last time returned, and remembers it. |
| Clocks.Clock.SetValue | src/datetime.cpp:75-80 | Keeps the larger value. |
| Clocks.Clock.GetClock | src/datetime.cpp:81-83 | System clock plus offset. |
| Clocks.Clock.SteerTowards | src/datetime.cpp:50-52 | Moves the offset by the rate times the distance to the given time. |
| Clocks.Clock.SteerBy | src/datetime.cpp:54-56 | Moves the offset by the rate times the difference. |
| Clocks.Clock.SetAdjustRate | src/datetime.cpp:58-60 | Changes the rate only. |
| Clocks.Clock.constructor | src/datetime.cpp:63-70 | Starts at value zero, with the offset between universal time and system clock and the default rate. |

## Left out

- Statistics.Processor.InsertValue: the period is fixed for a processor; changing it between samples by a parameter is not modelled, and a period below zero acts as zero.
- Exactness.RightExactly: the `time` field of a statistic, which the early returns leave unwritten, is not part of the model; the variance is kept instead of its root.
- AccelerationPeaks.StoredMoments: the square root is a parameter that is assumed to be one, since its rounding is not modelled.
- AccelerationPeaks.AccelerationHistory.HandleValue: says nothing when stamps are not positive or decrease, or thresholds change between samples; the detector divides by a duration that is then meaningless.
- HttpParser.Step: version numbers are unbounded, so the overflow of a signed int by a version of more than nine digits is not modelled.
- Xsens.XsensParser.Parse: the axis-flipping variant of the record rules has the same identifiers and lengths and is not modelled apart; the numbers inside known records are not decoded.
- Ublox.UbloxParser.Parse: the rules for the payloads behind an accepted packet are not modelled.
- Records.ParseRecord: the identifiers come from the header files of the Xsens device library, which is not part of this model, so their values are given here.
- Scaling.ScaleTo: with min equal to max and no multiplier, a value at that very point is excluded: the code then converts not-a-number to an integer, which has no defined result.
- UsbTransfers.RunKeeps: the copying of buffers, and the work guard that keeps the event loop alive, are not modelled; the memory allocator is assumed to give out addresses that are not in use.
- Clocks.Clock.Time: the clock is used by one thread at a time; data races between its users are not modelled.
- Search.ContainsAt: positions are unbounded, where the code counts in an int; the variant that searches for a single item is left to the standard library by the code and is not modelled.
- Rounding, infinities and not-a-number values of doubles.
- The other register maps (`base_map`, `processor_map`) and the dispatch on addresses: a table of cases without state.
- `url_decode`, replies, JSON and HTML rendering, and connections: input and output, or behaviour of library streams.
- Device initialisation, polling, serial ports, sockets, USB descriptors, services and watchdogs: operating system calls.
- Loading of scales and of the configuration: data only.
