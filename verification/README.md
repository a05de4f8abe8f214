# Verified models of the Qpid protocol code

This project models the parts of Apache Qpid where a protocol, a codec or a shared
table has to keep a promise over every input or every run, and proves those promises:

- the AMQP 0-10 session of the Python client: serial numbers and ranged sets, the two
  ends that number commands by counting, and completion exchanged as sets of ids;
- the AMQP 0-10 stack of the Python client: ops, segments, frames, octets, and the typed
  values inside, with the incremental decoders of every layer and any number of channels;
- the AMQP 0-8/0-9 codec with its lazily packed bits, the legacy content header and
  content trees;
- the struct layout that the Ruby generator emits for the C++ broker, and its agreement
  with both Python codecs;
- QMF in C++: the agent's two indexes and batched query answers, the console's table of
  agents with its events and ageing, the event notifier, the schema hash; and schema
  discovery in the older Python management client;
- mllib's event-to-tree parser and its printer.

Code that changes things in place is modelled by classes with the same fields and by
methods with the same loops and branches, each proved against a specification function;
the properties are then proved about those functions. A raised exception is a `None`
result or an `ok` flag. The tables that the source loads from the protocol definition are
parameters.

## What the proofs show

Sessions. Both ends give every command the same id although no id travels, through any
number of wraps of the 32-bit counter (`SessionProtocol.IdsAgree`). Nothing that was
completed is lost and nothing is called completed that was not
(`SessionProtocol.CompletionIsConserved`), and a report that is answered leaves both ends
settled: the receiver keeps nothing and the sender exactly what was never completed
(`SessionProtocol.TimelyReplySettles`). This holds for runs of fewer than 2^31 commands
and for no larger bound (`SessionProtocol.ConservationBoundIsExact`): with two ids 2^31-1
apart, `add_range` claims everything between them, so windows of 2^31-1 ids are exactly the
ones in which it is right (`RangedSets.WidthIsExact`). The order of additions never shows in a
ranged set (`RangedSets.OrderAndRepetitionDoNotMatter`).

The 0-10 stack. Ops of any channels come back from the octets however the segments were
split, the frames of the two tracks interleaved and the octets cut, as long as each op is
written whole on its track (`Stack.OpsSurviveTheWire`), which is what the connection does.
Two channels may not take turns on one track, because the op decoder files the open op by
its track alone (`Ops.ChannelsMayNotTakeTurns` is a failing input). The exact condition: for
all ops of all channels, decoding succeeds if and only if no op begins on a track while
another is open there, and then every channel gets its ops back
(`Channels.ChannelsReturnExactly`, and through frames and octets
`Stack.ChannelsSurviveTheWireExactly`). An object's fields come back exactly when every
present field has a flag (`Codec010.RecordsReturnExactly`); a class without flag octets
writes fields that are never read. What the reader does not look at is stated on the octets
(`Codec010.MapOctets`, `Codec010.CompoundOctets`), and so are the places of every header field
(`Framing.HeaderOctets`, `Ops.SegmentsOfOp`); what the reader makes of octets that no writer
produced is stated too (`Reading010.RecordsTell`, `Reading010.RepeatedKeys`).

The older protocol. Encoder and decoder stay in step over every sequence of bits and other
fields (`Codec08.SequencesReturn`). The legacy header returns every set of properties
exactly for classes of at most fourteen (`LegacyHeaders.FlagsReturnExactly`); with fifteen
the first property is read as the second, with more writing raises. A content tree comes back
from any cutting of its bodies exactly when no child but a last one leaves an empty frame
behind, and neither does the root (`Contents.ContentReturns`).

Layouts. The emitted C++ and the Python codec write the same octets for every packed struct
of flags, numbers and length-prefixed strings (`Layout.OneLayout`), and the groups of bits of
`process_fields` are the octets of the lazily packed bits (`Layout.SameOctetsAsLazyBits`).

Management. The counter of outstanding requests is zero exactly when nothing is on its way
(`Discovery.CounterDetectsTheEnd`), and then the schema is complete
(`Discovery.ZeroMeansComplete`); but the callback always misses the class announced last,
unless it was announced before (`Discovery.CallbackMissesTheLast`). The agent's two indexes
agree exactly when no live object's schema has been registered again
(`AgentData.IndexesAgreeExactly`), and a query returns exactly the live objects that it asks
for, by increasing address (`ConsoleQueries.SchemaQueryReceives`).
The console's events mirror its table (`Console.EventsMirrorTheTable`), an agent is not aged
out early (`Console.AgeingBound`), and a silent one leaves at an exact pass
(`Console.SilentAgentLeaves`). A change within any eight characters always changes
the hash (`Hash.ChangesAlwaysShow`).

Documents. Printing the tree built from any well matched events gives back the text of those
events, also where tags were left open; parsing raises for all other events
(`Dom.ParseAndPrint`). A reader that does not share the printer's definitions finds the events
again in the text (`Lexer.EventsBack`).

## Model

| member | source | states |
|---|---|---|
| Serials.DifferenceIsMasked | qpid/python/qpid/datatypes.py:140 | the difference is spelled without a division; this is why that is the masked one |
| Serials.NeighboursAreSums | qpid/python/qpid/datatypes.py:184-187 | the neighbours in the eight tests are spelled without a division; this is why they are the serials plus and minus one |
| Serials.CompareMeetsRfc1982 | qpid/python/qpid/datatypes.py:134-147 | the comparison is that of RFC 1982 section 3.2 on every pair, and says equal for the pairs half the space apart that the standard leaves undefined |
| Serials.CompareOrdersWindow | qpid/python/qpid/datatypes.py:134-147 | in any window shorter than 2^31 the comparison is a total order, that of the distance from the window's start |
| Serials.PlusIsLater | qpid/python/qpid/datatypes.py:149-150 | RFC 1982 section 3.1: adding up to 2^31-1 gives a later serial, and subtracting it again goes back |
| Serials.ContainsExactly | qpid/python/qpid/datatypes.py:173-174 | exactly which serials any range contains, also when it is longer than half the space |
| Serials.TouchesInWindow | qpid/python/qpid/datatypes.py:182-191 | the eight-way test holds exactly for ranges that overlap or are adjacent |
| Serials.SpanInWindow | qpid/python/qpid/datatypes.py:193-194 | the span of touching ranges covers exactly what they cover |
| RangedSets.RangedSet.AddRange | qpid/python/qpid/datatypes.py:220-232 | the loop that deletes and inserts in the list computes the recursive insertion |
| RangedSets.RangedSet.Has | qpid/python/qpid/datatypes.py:214-218 | found exactly when some range contains it |
| RangedSets.RangedSet.Min | qpid/python/qpid/datatypes.py:249-253 | the least member of a canonical list, None exactly for an empty one |
| RangedSets.RangedSet.Max | qpid/python/qpid/datatypes.py:243-247 | the greatest member of a canonical list, None exactly for an empty one |
| RangedSets.InsertInWindow | qpid/python/qpid/datatypes.py:220-232 | one addition keeps the list sorted, disjoint and non-adjacent, and its members become exactly the old ones and the new range |
| RangedSets.CanonicalIsUnique | qpid/python/qpid/datatypes.py:207-232 | the members determine the list |
| RangedSets.OrderAndRepetitionDoNotMatter | qpid/python/qpid/datatypes.py:220-235 | the same ranges added in any order, any number of times, give the same list |
| RangedSets.RebuildIsIdentity | qpid/python/qpid/codec010.py:206-214 | a set that is rebuilt range by range from the wire is the same list |
| RangedSets.WindowIsSharp | qpid/python/qpid/datatypes.py:182-232 | ids 2^31-1 apart are merged into one range with everything between: the window cannot be wider |
| RangedSets.WidthIsExact | qpid/python/qpid/datatypes.py:182-232 | adding a range adds exactly its members, for all lists and ranges in windows of a width, if and only if the width is at most 2^31-1 |
| Session.Sender.Send | qpid/python/qpid/session.py:245-255 | without a channel nothing changes; otherwise the command gets the next id, is kept, and is announced by a command point the first time |
| Session.Sender.Completed | qpid/python/qpid/session.py:257-266 | exactly the reported commands leave the list, in order, and the report is added to the completed set |
| Session.Receiver.Received | qpid/python/qpid/session.py:216-220 | the command gets the next id, which advances; without a command point it is refused |
| Session.Receiver.Completed | qpid/python/qpid/session.py:222-225 | the id joins the completed set; a command without id is refused |
| Session.Receiver.KnownCompleted | qpid/python/qpid/session.py:227-235 | the set keeps exactly the ranges no known range encloses |
| Session.ForgottenInWindow | qpid/python/qpid/session.py:227-235 | forgetting drops only ids that are known, and invents none |
| Session.ForgottenExactly | qpid/python/qpid/session.py:227-235 | an id stays exactly when the range that holds it is not known as a whole |
| Session.OutstandingTwice | qpid/python/qpid/session.py:257-264 | two reports one after the other drop what their union drops |
| Delegates.Delegate.SessionCommandPoint | qpid/python/qpid/delegates.py:92-95 | sets the receiver's next id and nothing else that is modelled |
| Delegates.Delegate.SessionCompleted | qpid/python/qpid/delegates.py:97-101 | the sender records the report, and answers a timely-reply request with the same set |
| Delegates.Delegate.SessionKnownCompleted | qpid/python/qpid/delegates.py:103-104 | the receiver forgets what is known |
| Delegates.Delegate.SessionFlush | qpid/python/qpid/delegates.py:106-117 | the next id, the completed set as confirmed and the completed set as completed are reported in this order, each exactly when asked for; a set that cannot be written ends the handler |
| Delegates.FlushTells | qpid/python/qpid/delegates.py:106-117 | the answer has one part for each that was asked for, in order; the next id is the only member of its set, the completed set arrives as it is |
| Delegates.Transmit | qpid/python/qpid/codec010.py:206-221 | what one end writes as a sequence set the other rebuilds, as long as its size fits 16 bits |
| SessionProtocol.IdsAgree | qpid/python/qpid/session.py:216-255 | in every run no command comes before its command point, both ends give the k-th command the id k mod 2^32, and the ends' counters differ by the commands in flight |
| SessionProtocol.CompletionIsConserved | qpid/python/qpid/session.py:222-266 | in every run of fewer than 2^31 commands: completed ids are held by one end, the sender's set holds only completed ids, known sets in flight are inside it, and the kept commands are exactly the issued ones outside it, in order |
| SessionProtocol.ReportSettles | qpid/python/qpid/delegates.py:97-117 | one report, once nothing is on its way back, leaves exactly the commands that were not completed |
| SessionProtocol.TimelyReplySettles | qpid/python/qpid/delegates.py:97-104 | with nothing on its way, a report that asks for a reply, the reply and its handling leave the receiver with an empty set and the sender with exactly what was not completed |
| SessionProtocol.NoReplyUnasked | qpid/python/qpid/delegates.py:97-101 | a report that does not ask for a reply gets none |
| SessionProtocol.FlushSettles | qpid/python/qpid/delegates.py:106-117 | a flush for completed settles like a report, any other changes nothing |
| SessionProtocol.ConservationFailsAtHalf | qpid/python/qpid/datatypes.py:220-232 | with 2^31 commands a run exists that drops a command never completed |
| SessionProtocol.ConservationBoundIsExact | qpid/python/qpid/session.py:222-266 | conservation holds for all runs of at most n commands exactly when n is below 2^31 |
| Framing.FrameEncoder.Write | qpid/python/qpid/framing.py:126-132 | the output grows by the header and payload of every frame |
| Framing.FrameDecoder.Write | qpid/python/qpid/framing.py:87-114 | the parse loop ends on any octets and computes the draining function, raising for an oversized payload |
| Framing.ChunkingDoesNotMatter | qpid/python/qpid/framing.py:80-137 | however the octets of frames are cut into writes, exactly those frames are delivered and nothing is left over |
| Framing.SegmentEncoder.Write | qpid/python/qpid/framing.py:172-193 | a segment becomes its frames, one even when it is empty, with the right flags on each |
| Framing.SegmentDecoder.Write | qpid/python/qpid/framing.py:145-159 | fragments are kept by channel and track until the last frame |
| Framing.OthersDoNotMatter | qpid/python/qpid/framing.py:145-159 | what one channel and track gets depends only on its own frames |
| Framing.InterleavedSegmentsReturn | qpid/python/qpid/framing.py:139-198 | any interleaving that keeps each pair's order returns each pair's segments in order |
| Framing.PipelineReturnsSegments | qpid/python/qpid/framing.py:80-198 | segments split at any sizes, interleaved and cut into any pieces come back, per channel and track, in order |
| Framing.HeaderOctets | qpid/python/qpid/framing.py:126-132 | the header octet by octet: flags, type, size with the header, track and channel in network byte order, all pads zero |
| Framing.ShortSizes | qpid/python/qpid/framing.py:98-116 | a size below that of the header is a negative slice bound: the frame takes all but the last octets, and is refused above 65523 |
| Framing.FlagBits | qpid/python/qpid/framing.py:22-25 | bit 3 is the first segment, bit 2 the last segment, bit 1 the first frame, bit 0 the last frame |
| Framing.SplitShape | qpid/python/qpid/framing.py:172-193 | all frames of a segment but the last are full, none is longer than the maximum, and the flags tell the place of each |
| Codec010.RoundTrip | qpid/python/qpid/codec010.py:70-327 | values of any nesting are read back as written and leave what follows; an absent map, list or array stays distinct from an empty one |
| Codec010.SetBack | qpid/python/qpid/codec010.py:206-221 | a canonical set is read back as the same list of ranges |
| Codec010.EntriesBack | qpid/python/qpid/codec010.py:234-261 | a dict's entries are read back in order |
| Codec010.RecordBack | qpid/python/qpid/codec010.py:334-368 | flags and fields are read back, absent fields as the class's defaults |
| Codec010.CompoundBack | qpid/python/qpid/codec010.py:318-332 | size, code, flags and fields of a compound are read back, also where the size has no width |
| Codec010.RecordsReturnExactly | qpid/python/qpid/codec010.py:334-368 | the fields come back if and only if every present field has its flag |
| Codec010.MapOctets | qpid/python/qpid/codec010.py:256-261 | the size is the number of octets that follow, the count the number of entries |
| Codec010.ListOctets | qpid/python/qpid/codec010.py:298-306 | the size is the number of octets that follow, the count the number of items |
| Codec010.ArrayOctets | qpid/python/qpid/codec010.py:274-285 | size, type of the first element (void for none) and number of elements |
| Codec010.CompoundOctets | qpid/python/qpid/codec010.py:326-332 | the size is the number of octets that follow it, then the class's code |
| Codec010.PresenceOctets | qpid/python/qpid/codec010.py:347-359 | the presence of field i is bit i % 8 of octet i / 8 |
| Codec010.NumberOctets | qpid/python/qpid/codec010.py:80-153 | numbers are written in their width, signed ones in two's complement, and raise exactly outside their range |
| Codec010.FixedOctets | qpid/python/qpid/codec010.py:70-111 | void, boolean, datetime and bin128 on the octets |
| Codec010.StringOctets | qpid/python/qpid/codec010.py:174-229 | length and octets of every string, which strings each type takes, and when writing raises |
| Codec010.RangeOctets | qpid/python/qpid/codec010.py:216-221 | eight octets for each range, lower end first |
| Codec010.ItemsByPythonType | qpid/python/qpid/codec010.py:38-54 | which values a list takes: integers of 64 bits and no other, an ASCII str as text, any other as octets, and how each comes back |
| Reading010.ReadGoesForward | qpid/python/qpid/codec010.py:64-390 | of any octets, every read leaves an end of them: nothing is read twice or out of order |
| Reading010.StringsTell | qpid/python/qpid/codec010.py:174-229 | a string takes as many octets as it announces, or all that are left; text that is not utf8 raises |
| Reading010.BooleansTell | qpid/python/qpid/codec010.py:104-105 | any octet but zero is true |
| Reading010.SetsTell | qpid/python/qpid/codec010.py:206-215 | a set takes an eighth of its size in ranges, and what is over stays behind |
| Reading010.CodesAreChecked | qpid/python/qpid/codec010.py:308-325 | a compound of another code than its class's, and a struct of no known code, are refused |
| Reading010.RecordsTell | qpid/python/qpid/codec010.py:334-346 | of any record that is read, bit fields are their flags and fields without a flag are None |
| Reading010.RepeatedKeys | qpid/python/qpid/codec010.py:234-246 | of entries whose keys come again, what is read has every key once, with the value that came last |
| StringCodecs.StringCodec.WritePrimitive | qpid/python/qpid/codec010.py:72-73 | the codec's string grows by the octets of the value, or the write raises, as the specification says |
| StringCodecs.StringCodec.ReadPrimitive | qpid/python/qpid/codec010.py:70-71 | a value is consumed from the string, or the read raises, as the specification says; it ends on any octets |
| StringCodecs.StringCodec.WriteItems | qpid/python/qpid/codec010.py:298-306 | the loop over a list writes a type code and a value for each item |
| StringCodecs.StringCodec.ReadItems | qpid/python/qpid/codec010.py:287-297 | the loop over a count reads as many items, from a string that only gets shorter |
| StringCodecs.StringCodec.WriteElements | qpid/python/qpid/codec010.py:274-285 | the loop over an array writes all values by the type of the first |
| StringCodecs.StringCodec.ReadElements | qpid/python/qpid/codec010.py:263-273 | the loop over an array's count |
| StringCodecs.StringCodec.WriteEntries | qpid/python/qpid/codec010.py:248-261 | every entry is written by a codec of its own and joined |
| StringCodecs.StringCodec.ReadEntries | qpid/python/qpid/codec010.py:234-246 | entries are read while octets are left, a later key replacing an earlier one |
| StringCodecs.StringCodec.WriteFlags | qpid/python/qpid/codec010.py:347-359 | the presence flags in octets, low flags first |
| StringCodecs.StringCodec.ReadFlags | qpid/python/qpid/codec010.py:334-337 | the flag word from its octets, or an exception when one is missing |
| StringCodecs.StringCodec.WriteRecord | qpid/python/qpid/codec010.py:347-368 | the loop over the present fields |
| StringCodecs.StringCodec.ReadRecord | qpid/python/qpid/codec010.py:334-346 | the loop over the flagged fields |
| StringCodecs.StringCodec.WriteCompound | qpid/python/qpid/codec010.py:326-332 | a compound is written through a codec of its own, with the size of its class |
| StringCodecs.StringCodec.ReadCompound | qpid/python/qpid/codec010.py:318-325 | size, checked code, fields |
| StringCodecs.StringCodec.ReadStruct32 | qpid/python/qpid/codec010.py:308-314 | a compound by its code; an unknown code raises |
| StringCodecs.StringCodec.WriteSequenceSet | qpid/python/qpid/codec010.py:216-221 | the loop over the ranges |
| StringCodecs.StringCodec.ReadSequenceSet | qpid/python/qpid/codec010.py:206-215 | the loop that rebuilds the set |
| Ops.OpEncoder.Write | qpid/python/qpid/framing.py:209-233 | the segments of the ops in order, each op's last one marked; an unregistered class raises |
| Ops.OpDecoder.Write | qpid/python/qpid/framing.py:258-283 | the loop over segments keeps one open op per track |
| Ops.SegmentsBack | qpid/python/qpid/framing.py:209-308 | one op's segments give back its class, fields, sync, channel, headers and payload, an absent payload distinct from an empty one |
| Ops.TracksDoNotMix | qpid/python/qpid/framing.py:258-283 | a decoder of both tracks does for each what a decoder of that track alone does |
| Ops.OpsReturn | qpid/python/qpid/framing.py:204-313 | any list of ops whose segments stay together per track comes back, track by track, and no op is left open |
| Ops.SegmentsOfOp | qpid/python/qpid/framing.py:209-233 | the number, types, tracks, channels and marks of an op's segments, and the body as it is |
| Ops.CommandOctets | qpid/python/qpid/framing.py:235-240 | a command's code, its header of one octet with the sync bit, and its fields |
| Ops.ControlOctets | qpid/python/qpid/framing.py:242-245 | a control's code and its fields |
| Ops.ChannelsMayNotTakeTurns | qpid/python/qpid/framing.py:258-283 | two commands of different channels taking turns on a track: the second is delivered with the first one's body, then decoding raises |
| Channels.ChannelsReturnExactly | qpid/python/qpid/framing.py:244-313 | for every stream in which each channel and track carries its ops' segments in order: decoding succeeds if and only if no first segment arrives on a track where an op is open, and then every channel and track gets its ops back in order, with nothing stray and nothing open |
| Channels.Crowded | qpid/python/qpid/framing.py:262-283 | once more channels are inside an op than their track's one slot holds, some later segment raises |
| Channels.Regroup | qpid/python/qpid/framing.py:258-283 | an undisturbed track carries the ops of all its channels one after the other |
| Stack.OpsSurviveTheWire | qpid/python/qpid/connection.py:206-216 | ops of any number of channels, each written whole, with the frames of the two tracks interleaved and the octets cut in any way, come back track by track |
| Stack.OneChannelKeepsTogether | qpid/python/qpid/framing.py:139-198 | the frames of one channel alone always keep each track's segments together, however the tracks are interleaved |
| Stack.ChannelsSurviveTheWireExactly | qpid/python/qpid/framing.py:80-313 | frames of all channels and tracks interleaved in any way that keeps each pair's order: the octets give every pair its segments, and the ops come back if and only if the delivered segments do not disturb one another |
| Codec08.Codec.PackBits | qpid/python/qpid/codec.py:167-180 | the loop that sets bits in a growing list of octets packs eight to the octet, the first lowest |
| Codec08.Codec.Write | qpid/python/qpid/codec.py:152-158 | pending bits are flushed before anything else is written |
| Codec08.Codec.Read | qpid/python/qpid/codec.py:141-150 | bits left over are dropped, the end of the stream raises |
| Codec08.Codec.DecodeBit | qpid/python/qpid/codec.py:232-240 | an octet is read only when no bit is left |
| Codec08.Codec.EncodeStructBody | qpid/python/qpid/codec.py:588-607 | presence and reserved bits, fields, flush |
| Codec08.Codec.DecodeStructBody | qpid/python/qpid/codec.py:609-631 | the same in reverse; a reserved bit that is set raises |
| Codec08.Codec.EncodeStruct | qpid/python/qpid/codec.py:569-579 | a sized struct is encoded apart, an unsized one shares the pending bits |
| Codec08.Codec.DecodeStruct | qpid/python/qpid/codec.py:581-586 | size 0 stands for no struct |
| Codec08.FlushedBits | qpid/python/qpid/codec.py:167-180 | flushed bits are read back and the stream then stands just behind their octets |
| Codec08.BitPlaces | qpid/python/qpid/codec.py:167-180 | bit i is bit i % 8 of octet i / 8, and the rest of the last octet is zero |
| Codec08.ItemBack | qpid/python/qpid/codec.py:141-240 | the simulation: for any pending bits, any item and anything that follows, decoder and encoder move in step |
| Codec08.BodyBack | qpid/python/qpid/codec.py:588-631 | struct bodies keep in step with whatever bits were pending before them |
| Codec08.ReservedBitsAreZero | qpid/python/qpid/codec.py:609-631 | a struct is decoded only when its reserved bits are zero |
| Codec08.SequencesReturn | qpid/python/qpid/codec.py:141-240 | any sequence of bits, numbers, strings and structs comes back after the final flush and uses up exactly its octets |
| Codec08.SizesAgreeExactly | qpid/python/qpid/codec.py:549-567 | of the widths that are written, exactly 1 and 2 are read back |
| Codec08.SizeWidths | qpid/python/qpid/codec.py:549-567 | widths 1, 2 and 3 are written, in one, two and four octets; widths 1, 2 and 4 are read |
| Codec08.StringsAreCutShort | qpid/python/qpid/codec.py:141-150 | a string that goes on past the end of the stream is read as far as it goes, and raises only when nothing is there |
| LegacyHeaders.EncodeFlags | qpid/python/qpid/connection08.py:450-466 | the shifting loop computes the flag words, or raises when one does not fit |
| LegacyHeaders.DecodeFlags | qpid/python/qpid/connection08.py:504-514 | the loop over words reads fifteen flags each until the low bit is clear |
| LegacyHeaders.FlagsReturnExactly | qpid/python/qpid/connection08.py:450-514 | every set of n properties is read back if and only if n is at most 14 |
| LegacyHeaders.FirstIsLost | qpid/python/qpid/connection08.py:450-466 | the set that fails: the first property alone, read as the second for fifteen, raising for more |
| LegacyHeaders.FlagPositions | qpid/python/qpid/connection08.py:450-466 | property i of at most fourteen is bit 15 - i of the one word, all other bits are zero |
| LegacyHeaders.HeaderOctets | qpid/python/qpid/connection08.py:445-466 | class and weight in two octets each, the size in eight, then the flags |
| LegacyHeaders.HeaderReturns | qpid/python/qpid/connection08.py:445-524 | class, weight, size and every subset of at most fourteen properties come back and leave what follows |
| Contents.WriteContent | qpid/python/qpid/peer.py:262-269 | header, children, then the body if it is not empty |
| Contents.ReadContent | qpid/python/qpid/peer.py:421-433 | the recursive reader with its byte count computes the reading function |
| Contents.ContentReturns | qpid/python/qpid/peer.py:262-433 | for every tree and every cutting of its bodies: the tree comes back and exactly its frames are used up if and only if no child but a last one leaves empty frames and neither does the root; what is read is given for every cutting, None when a child in the middle leaves one |
| Contents.WrittenContentReturns | qpid/python/qpid/peer.py:262-433 | reading inverts writing for every tree |
| Contents.HeadersSay | qpid/python/qpid/peer.py:262-269 | every header carries the class, the first also the number of children and the length of the body |
| Contents.PiecesAreUsedUpExactly | qpid/python/qpid/peer.py:426-432 | the pieces of a body are used up if and only if the last of them is not empty |
| Contents.BodyTakes | qpid/python/qpid/peer.py:421-433 | of any frames, a body takes the fewest that hold its size, whole even where they hold more, and fails exactly when a header or the end comes first |
| Layout.MaskHas | qpid/cpp/rubygen/framing.0-10/structs.rb:94-97 | every field has a mask bit of its own |
| Layout.FieldsAreWhole | qpid/cpp/rubygen/framing.0-10/structs.rb:104-107 | a buffer that ends within a field, or within the text whose length it gives, is refused |
| Layout.FlagOctetsAgree | qpid/cpp/rubygen/framing.0-10/structs.rb:94-97 | the generator's flags in network byte order are the octets of the Python codec |
| Layout.PackedStruct.Set | qpid/cpp/rubygen/framing.0-10/structs.rb:309-315 | setting a field raises its flag only, before the length check may throw |
| Layout.PackedStruct.Encode | qpid/cpp/rubygen/framing.0-10/structs.rb:99-102 | the emitted encoder |
| Layout.PackedStruct.BodySize | qpid/cpp/rubygen/framing.0-10/structs.rb:109-112 | the announced size is the number of octets written |
| Layout.PackedStruct.Decode | qpid/cpp/rubygen/framing.0-10/structs.rb:104-107 | the emitted decoder |
| Layout.PackedReturns | qpid/cpp/rubygen/framing.0-10/structs.rb:99-131 | decoding into any object takes over flags and the announced values, and leaves the rest |
| Layout.OneLayout | qpid/python/qpid/codec010.py:347-368 | for every packed struct of flags, numbers and length-prefixed strings and every presence the emitted C++ and the Python codec write the same octets |
| Layout.ProcessFields | qpid/cpp/rubygen/framing.0-10/structs.rb:199-222 | the loop yields other fields alone and bit fields in runs, eight at most and never fewer than there are |
| Layout.PlainReturns | qpid/cpp/rubygen/framing.0-10/structs.rb:148-168 | structs without flags: decoding fills in every field as encoded |
| Layout.PlainSizeIsLength | qpid/cpp/rubygen/framing.0-10/structs.rb:170-186 | and their size is the number of octets |
| Layout.SameOctetsAsLazyBits | qpid/cpp/rubygen/framing.0-10/structs.rb:148-222 | the grouped bits are the octets that the 0-8 codec writes lazily |
| Discovery.ManagementClient.AddChannel | qpid/python/qpid/management.py:268-278 | one request outstanding, B sent |
| Discovery.ManagementClient.HandleBrokerResponse | qpid/python/qpid/management.py:590-601 | P is sent without counting it: it takes over the count of B |
| Discovery.ManagementClient.HandlePackageInd | qpid/python/qpid/management.py:603-615 | a new package is recorded and asked for its classes, counted |
| Discovery.ManagementClient.HandleClassInd | qpid/python/qpid/management.py:617-637 | a class of kind 1 of a known package is asked for its schema, counted |
| Discovery.ManagementClient.HandleCommandComplete | qpid/python/qpid/management.py:575-588 | only a completion whose number is pending as outstanding lowers the count |
| Discovery.ManagementClient.ParseSchema | qpid/python/qpid/management.py:670-792 | the count is lowered before the class is stored |
| Discovery.SequenceManager.Release | qpid/python/qpid/management.py:55-63 | gives the data once and forgets the number |
| Discovery.CounterDetectsTheEnd | qpid/python/qpid/management.py:517-537 | in every reachable state the count is the number of unanswered requests, zero exactly when nothing is on its way, and the callback has then been made once |
| Discovery.ZeroMeansComplete | qpid/python/qpid/management.py:590-792 | at zero every package announced was asked once and the schema holds exactly the classes of kind 1 announced |
| Discovery.CallbackMissesTheLast | qpid/python/qpid/management.py:517-792 | in every run the callback finds the schemata of all classes announced but the last: it misses exactly one unless none was announced or the last had been announced before |
| Discovery.CallbackMayMissTheLast | qpid/python/qpid/management.py:670-674 | the reply that brings the count to zero is a schema exactly when a class was announced, and the callback finds the complete schema if and only if that reply was not the first description of its class |
| Discovery.CompletionsCountOnce | qpid/python/qpid/management.py:575-588 | whatever completions come, also unknown or repeated ones, each awaited number lowers the count once and no other does |
| Discovery.OnlyNewClassesCount | qpid/python/qpid/management.py:617-670 | exactly the classes of kind 1 that are new in a known package are asked for and stored; any schema counts as an answer |
| Hash.Hasher.Update | qpid/cpp/src/qmf/Hash.cpp:32-44 | the loop over two 64-bit words, for signed and unsigned char |
| Hash.UpdateIsBijective | qpid/cpp/src/qmf/Hash.cpp:32-44 | any fixed input permutes the 2^128 states |
| Hash.CommonSuffix | qpid/cpp/src/qmf/Hash.cpp:32-44 | a common suffix neither makes nor undoes a collision |
| Hash.ChangesAlwaysShow | qpid/cpp/src/qmf/Hash.cpp:32-44 | inputs that differ within a stretch of at most eight characters never collide |
| Hash.StepRotates | qpid/cpp/src/qmf/Hash.cpp:36-43 | one character rotates the 128 bits by one octet and is added to the lower word alone |
| Hash.KnownValues | qpid/cpp/src/qmf/Hash.cpp:26-44 | the hash of nothing, of one letter and of one character of value 255 for either sign of char |
| AgentData.AgentSession.RegisterSchema | qpid/cpp/src/qmf/AgentSession.cpp:278-293 | the schema is kept, its part of the index is emptied, the update time is set and a heartbeat is due |
| AgentData.AgentSession.AddData | qpid/cpp/src/qmf/AgentSession.cpp:296-326 | a duplicate address changes nothing and throws; otherwise both indexes get the object |
| AgentData.AgentSession.DelData | qpid/cpp/src/qmf/AgentSession.cpp:329-346 | the object leaves both indexes |
| AgentData.AgentSession.AuthAccept | qpid/cpp/src/qmf/AgentSession.cpp:349-389 | the messages sent are the batched answer to the query, or one exception |
| AgentData.AgentSession.FlushResponses | qpid/cpp/src/qmf/AgentSession.cpp:919-947 | the loop sends the whole queue in one message and empties it |
| AgentData.AgentEvent.EnqueueData | qpid/cpp/src/qmf/AgentEvent.cpp:47-52 | the object is queued, the size returned |
| AgentData.BatchesOfEight | qpid/cpp/src/qmf/AgentSession.cpp:429-441 | n objects go out as n/8 partial messages of eight and one final message with the rest, in order |
| AgentData.IndexIsPartition | qpid/cpp/src/qmf/AgentSession.cpp:278-346 | after any run, each schema's part holds in order the live objects of that schema but for those registered over |
| AgentData.IndexesAgreeExactly | qpid/cpp/src/qmf/AgentSession.cpp:278-346 | the two indexes agree if and only if no live object was registered over |
| AgentData.OrderlyRunsAgree | qpid/cpp/src/qmf/AgentSession.cpp:278-346 | which is so when no schema is registered while it has live objects |
| AgentData.GlobalIsLive | qpid/cpp/src/qmf/AgentSession.cpp:296-346 | the global index lists exactly the objects added and not deleted since, by address |
| AgentData.SchemaQueryFinds | qpid/cpp/src/qmf/AgentSession.cpp:375-386 | by the history alone: a query by schema finds, by increasing address, exactly the live objects of that schema that match and were not registered over |
| AgentData.AddressQueryFinds | qpid/cpp/src/qmf/AgentSession.cpp:349-372 | a query by address finds exactly the live object there |
| ConsoleQueries.AgentImpl.HandleQueryResponse | qpid/cpp/src/qmf/Agent.cpp:408-503 | a response with data or schema ids joins its request's context or is an event of its own, schemata go to the cache, ids mentioned are learnt, and other content is ignored |
| ConsoleQueries.AgentImpl.HandleException | qpid/cpp/src/qmf/Agent.cpp:283-319 | an exception replaces what the context holds |
| ConsoleQueries.QueryReturnsWhatIsFound | qpid/cpp/src/qmf/Agent.cpp:408-470 | the console ends up with what the agent found, in order, and is finished with the last message and not before |
| ConsoleQueries.SchemaQueryReturnsTheLive | qpid/cpp/src/qmf/AgentSession.cpp:375-386 | end to end: a query by schema returns the matching live objects in index order, but for those registered over |
| ConsoleQueries.SchemaQueryReceives | qpid/cpp/src/qmf/Agent.cpp:408-470 | the same at the console, through the batches |
| ConsoleQueries.AddressQueryReceives | qpid/cpp/src/qmf/Agent.cpp:408-470 | the same for a query by address |
| ConsoleQueries.ResponsesCollect | qpid/cpp/src/qmf/Agent.cpp:436-470 | a request collects the data and schema ids of all its responses in order, and is final once one was not partial |
| ConsoleQueries.LearntExactly | qpid/cpp/src/qmf/SchemaCache.cpp:28-37 | ids that are learnt become known without a schema, nothing known changes |
| ConsoleQueries.DeclaredExactly | qpid/cpp/src/qmf/SchemaCache.cpp:40-53 | the first schema declared under an id stays |
| ConsoleQueries.MentionedExactly | qpid/cpp/src/qmf/Agent.cpp:446-458 | the ids that are learnt are those of the objects or those listed |
| ConsoleQueries.InvalidQueryFails | qpid/cpp/src/qmf/AgentSession.cpp:388-389 | a query by neither address nor schema ends in an exception |
| Console.ConsoleSession.SetAgentFilter | qpid/cpp/src/qmf/ConsoleSession.cpp:118-154 | the agents that do not match are collected, then erased with an event each, and the connected broker may come back |
| Console.ConsoleSession.HandleAgentUpdate | qpid/cpp/src/qmf/ConsoleSession.cpp:468-589 | locate replies, new agents, restarts and schema updates, each with its event |
| Console.ConsoleSession.Dispatch | qpid/cpp/src/qmf/ConsoleSession.cpp:353-373 | any message touches its agent |
| Console.ConsoleSession.Age | qpid/cpp/src/qmf/ConsoleSession.cpp:620-623 | the loop ages every agent but the connected broker's and collects those too old |
| Console.ConsoleSession.PeriodicProcessing | qpid/cpp/src/qmf/ConsoleSession.cpp:600-632 | at most one pass a minute, with a deletion event for each agent taken out |
| Console.EventsMirrorTheTable | qpid/cpp/src/qmf/ConsoleSession.cpp:118-632 | in every state of every run, replaying the add and delete events gives exactly the agents in the table |
| Console.AgeingBound | qpid/cpp/src/qmf/ConsoleSession.cpp:600-632 | with a clock that does not go back, an agent aged out was last heard of at least 60*(limit+1) seconds ago, and it is never the connected broker's (nor, while none is known, one with the empty name) |
| Console.SilentAgentLeaves | qpid/cpp/src/qmf/ConsoleSession.cpp:600-632 | after its last message an agent that is not the broker's leaves the table at due pass number limit + 2 and not before, unless a filter takes it out |
| Console.SilentAgentIsGoneInTime | qpid/cpp/src/qmf/ConsoleSession.cpp:600-632 | by the clock: with ticks at most a gap apart it is gone after 60 + (60 + gap) * (limit + 1) seconds |
| Console.FilterExactly | qpid/cpp/src/qmf/ConsoleSession.cpp:118-154 | after a filter is set all agents in the table satisfy it, and none that does has left but for one whose place the broker's takes |
| Console.FilterEvents | qpid/cpp/src/qmf/ConsoleSession.cpp:118-154 | setting a filter tells exactly the agents that do not satisfy it, with the filter as the reason, and the return of the broker's agent |
| Sharing.BrokerIsShared | qpid/cpp/src/qmf/ConsoleSession.cpp:468-632 | in every state of every run an agent that is in the table and is the connected broker's holds the same in both places, and no object is in the table twice |
| Console.UpdateTells | qpid/cpp/src/qmf/ConsoleSession.cpp:519-589 | what an update does, by the table before and after: not admitted, new, restarted, newer schema |
| Console.LocateTells | qpid/cpp/src/qmf/ConsoleSession.cpp:499-517 | a locate reply names the broker's agent, and shows it when the filter admits it |
| Console.PassDueExactly | qpid/cpp/src/qmf/ConsoleSession.cpp:613-616 | on 64-bit words a pass is due after a minute, or as soon as the clock has gone back |
| Notifier.PosixEventNotifier.SetReadable | qpid/cpp/src/qmf/EventNotifierImpl.cpp:48-52 | the pipe is updated by the old flag, then the flag is set |
| Notifier.PosixEventNotifier.Update | qpid/cpp/src/qmf/PosixEventNotifierImpl.cpp:51-63 | a byte goes in when the flag rises and up to ten come out when it falls |
| Notifier.EventQueue.EnqueueEvent | qpid/cpp/src/qmf/AgentSession.cpp:528-537 | the notifier is alerted when the queue was empty |
| Notifier.EventQueue.NextEvent | qpid/cpp/src/qmf/AgentSession.cpp:233-255 | the notifier is lowered when the queue becomes empty |
| Notifier.AttachWhileEmpty | qpid/cpp/src/qmf/ConsoleSession.cpp:312-327 | flag, pipe and queue agree after every sequence of uses if and only if the notifier was attached to an empty queue |
| Notifier.AgreesOnceEmpty | qpid/cpp/src/qmf/ConsoleSession.cpp:246-254 | attached at another time, they agree whenever the queue has run empty |
| Notifier.FirstInFirstOut | qpid/cpp/src/qmf/AgentSession.cpp:233-255 | whatever the uses, what was taken out followed by what is left is what was there followed by what was put in |
| Notifier.TenBytesAreRead | qpid/cpp/src/qmf/PosixEventNotifierImpl.cpp:51-63 | a pipe left with `p` bytes is empty once the queue has run empty if and only if `p` is at most ten |
| Dom.Parser.StartTag | qpid/python/mllib/parsers.py:43-46 | the tree stays well formed and prints the events so far |
| Dom.Parser.CharacterData | qpid/python/mllib/parsers.py:52-57 | text is joined to a last child that is text |
| Dom.Parser.EndTag | qpid/python/mllib/parsers.py:48-50 | tags left open inside are closed, then the tag itself; an end with no open tag of its name flattens everything and leaves the tree |
| Dom.Parser.Balance | qpid/python/mllib/parsers.py:68-73 | the loop flattens tags left open, innermost first, without changing what the tree prints |
| Dom.Parse | qpid/python/mllib/parsers.py:27-107 | parsing raises exactly when an end has no open tag; otherwise the tree prints the events, with adjacent text joined |
| Dom.ParseAndPrint | qpid/python/mllib/transforms.py:100-123 | the printed text is the text of the original events; a reader that knows nothing of the printer finds the events in it; it raises exactly when an end has no open tag or there is a character reference |
| Lexer.EventsBack | qpid/python/mllib/transforms.py:100-123 | a separately defined reader finds in the printed text the same tags, attributes, texts, references and comments, in order, when no delimiter occurs in what it delimits |
| Events.CloseTagIsPrefix | qpid/python/mllib/parsers.py:68-69 | an end closes its innermost open tag and everything inside it |

## Left out

- SASL, sockets, selectors, threads, waiting and timeouts: every method that holds a lock is
  one step, and time is an input.
- Loading the protocol definition and its pickled form; its tables are parameters.
- Session controls other than command-point, completed, known-completed and flush: gaps,
  detaching and replay. The delegate has no handlers for session.expected and
  session.confirmed, so runs ask a flush for completed only.
- A set of more than 8191 ranges cannot be written; the model then sends nothing, the source
  raises in the thread that reports.
- What a codec, encoder or decoder object holds after it has raised is specified only as far
  as octets, segments and ops already complete.
- Python's implicit conversions in the codecs (truth values of other types, numbers given as
  floats); which octets are utf8 is a parameter of the tables, and floats are opaque.
- The field tables, sequences and arrays of the 0-8 codec, and its `encode_long_struct`.
- The counters `nread` and `nwrote` of the 0-8 codec, which only its field tables use.
- The generator's other outputs, and its field types with an `encodedSize()` of their own.
- Headers as structs (0-10 preview).
- Dom.Parser.EndTag: after an end with no open tag the source's current node is None; the model
  says so by its result, and leaves the field at the tree.
- Schema descriptions: discovery stores only the key of a class. Requests of users, sync calls
  and several channels sharing one client.
- The 32-bit limit of the management client's sequence numbers in message headers.
- `external` storage mode of the agent, subscriptions, methods and QMF events; schemata with
  the same name and another hash count as equal, as the index's order has it.
- A query's timeout: the model follows the messages, not the wait.
- Message bodies of agent updates without `_values`, or with values of other types, which are
  ignored or raise.
- A write to the notifier's pipe that fails.
- Line numbers, queries, paths and the other transforms of mllib; XML input.
- Console.ConsoleSession: the agents are values with an identity number, and a change to one is
  written through to every place that holds it, instead of shared objects; that this keeps
  them one object is `Sharing.BrokerIsShared`.
- AgentData.AgentSession: addresses and the order of a std::map are numbers and sorted lists.
