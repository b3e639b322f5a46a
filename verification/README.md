# warpcoil: the wire format and the connection machinery

warpcoil is an asynchronous remote procedure call library with a wire format of
its own. This project models, in Dafny, the two layers that everything else in it
rests on, and proves what they are for.

**The wire codec.** Types are trees of integers, UTF-8 texts, tuples, vectors,
variants and structures. The serializer and the parser that the generators emit
for a type are modelled as interpreters of the type. The parsers are objects that
are fed one byte at a time and contain each other; together they are one state
machine, and for every type and every string of bytes that machine computes a
recursive descent over the whole string, including the bytes it loses: a tuple
member or vector element that completes without consuming its byte drops it. From
there the project proves exactly which values are accepted and what is written for
them, exactly when a value survives the round trip, exactly which types lose no
byte, when a parse completes, and when before any byte, that encodings are canonical
and prefix-free, and that the way the stream is cut into reads makes no difference.

**The connection.** Splitter, registry of expected responses, client pipeline,
emitted server and buffered writer of one end of a connection are one small-step
machine. Every call of a completion handler is a frame on an explicit stack, and
where the application's code runs, any script of requests, serves and results may
follow. Over every run of that machine: one reader at a time, the assertions on
the state of splitter and registry, every waiter called once with its own kind of
message or told of an error, an account of every request id and of every callback of
`serve_one_request`, nothing read that nobody has asked for, and an end to every
chain of callbacks. The assertions that `begin_parse_message` is set are separate:
they hold, and no wake-up is lost, as long as each response is that to a pending
request, whatever else fails; there is a run in which they do not hold after one
that is not. An error of the splitter or of a result stops an end for good; after
the response to an unknown request, or arguments that cannot be parsed, it reads
on in the middle of a message. What becomes of the callbacks that are pending at an
error is all or nothing: if the error is that of a result, or of a header that a
response is waited for in, each of them is called with it, once and in order;
otherwise, unless the end reads on, none of them is ever called, nor is that of any
later request. There is a run on a valid stream in which that happens.

Then runs on a stream of whole messages, for an end that makes requests and serves
them at the same time: until it meets an error every callback gets the result of
its own request, the implementation is called for the requests in order, and no
byte is lost between messages; and it meets an error exactly when it decodes the
type of a message that it does not wait for at that moment. An end that only makes
requests, or only serves them, never does; an end that does both can, on a valid
stream: when a response begins to arrive right after a result, or a request while
none is served or right after the arguments of one, and at no other time. What an
end sends is whole messages,
in one way only; with the part of a message that was refused half way after them it
is not any whole messages. Two ends joined by two streams are correct end to end, in both
directions, over every interleaving and every cut of the streams into reads, and
hand over nothing wrong even after one of them, or both, have met an error; and
from every state that a client and a server can reach they can go on to one where
all that was sent has been handed over.

The parsers, the parse operation, the buffered writer with its chain of handlers,
the splitter, the registry, the client pipeline and the emitted server are also
written as classes in the form of the source; each of their methods is proved to
do what the machine's step does.

Where the documentation and the code disagree, the model follows the code. The
table of types in the documentation says that a variant's index is encoded as an
integer; the code writes it as wide as the number of alternatives asks for and
always reads one byte (`RoundTrip.WideVariantNeverRoundTrips`,
`RoundTrip.NumberIsNotReadBack`). It says that an
integer takes as many bytes as its maximum needs; the code takes 1, 2, 4 or 8.

| file | what it holds |
|---|---|
| `WireTypes`, `BigEndian`, `Utf8`, `WireFormat`, `Reference` | the type tree and its order, integers on the wire, text, the documented format and the serializer, and which values it writes as which bytes |
| `ParserMachine`, `Rejection`, `Conformance`, `Layout`, `RoundTrip` | the parsers as a machine, what they can reject, lost bytes and look-ahead, the bytes that make a value, what parser and serializer do to each other |
| `Parsers`, `ParseOperation` | the parser objects and the loop that feeds them |
| `WriterModel`, `BufferedWriter` | coalesced writes and the chain of handlers |
| `SplitterModel`, `Messages`, `Connection`, `Framing` | the machine of one end of a connection, and its messages in numbers |
| `ConnectionInvariant`, `ConnectionAccounting`, `Failures`, `Serving`, `Calling`, `Effects`, `Progress` | what every step keeps, in every use |
| `Stopping`, `Hanging`, `LostWakeUp` | which errors stop an end, which callbacks hear of them, and what happens after the others |
| `IncomingStream`, `Peer`, `Demultiplexing`, `Handing`, `Output` | runs over streams of whole messages |
| `EndToEnd`, `Delivery`, `Liveness` | both ends together |
| `Duplex` | where an end that makes and serves requests fails |
| `Examples` | the byte strings of the repository's tests |
| `MessageSplitter`, `ResponseRegistry`, `ClientPipeline`, `GeneratedServer`, `Callers` | the objects of the connection, and that they may be called as they are |

## Model

| member | source | states |
|---|---|---|
| WireTypes.Trichotomy | warpcoil/types.hpp:70-223 | `less` is irreflexive and asymmetric, and two types are related neither way exactly when they are equal, for all nested types and field names |
| WireTypes.Transitive | warpcoil/types.hpp:70-223 | `less` is transitive, so it is a strict total order |
| WireTypes.InOrder | warpcoil/types.hpp:95-211 | which order it is: integer, variant, tuple, vector, utf8, structure; within a kind the minimum and then the maximum, the length and then the element, or the members lexicographically |
| WireTypes.FieldInOrder | warpcoil/types.hpp:206-218 | fields are ordered by type and then by name, character by character |
| WireTypes.FindsIffGenerated | warpcoil/cpp/generate/shared_code_generator.hpp:32-38 | looking a structure up in the set of generated structures finds it if and only if that structure itself was inserted |
| BigEndian.DecodeEncode | warpcoil/cpp/integer_parser.hpp:14-25 | accumulating the bytes of a number that fits the width gives the number back |
| BigEndian.EncodeDecode | warpcoil/cpp/write_integer.hpp:11-19 | writing what was accumulated gives the bytes back |
| BigEndian.EncodeAt | warpcoil/cpp/write_integer.hpp:14-17 | every byte of the big-endian encoding is the value shifted by the bytes after it, truncated to 8 bits |
| BigEndian.WriteInteger | warpcoil/cpp/write_integer.hpp:11-19 | the loop over the array appends the big-endian encoding to the sink |
| Utf8.ValidExactly | warpcoil/cpp/utf8_parser.hpp:44-56 | a text is valid if and only if it is the encoding of some Unicode scalar values, as section 3 of RFC 3629 has it |
| WireFormat.WidthIsLeast | warpcoil/cpp/generate/generate_type.hpp:12-27 | the width is 1, 2, 4 or 8 bytes, and it is the least of these that holds the maximum |
| WireFormat.Serialize | warpcoil/cpp/generate/generate_value_serialization.hpp:11-149 | the recursive serializer appends exactly the bytes of the value, or those up to the first rejected part, and says which; which values go through and which bytes these are is `Reference.WrittenExactly` |
| WireFormat.SerializeAll | warpcoil/cpp/generate/generate_value_serialization.hpp:73-112 | the loop over members or elements appends them in order and stops at the first that is rejected |
| Reference.AcceptedExactly | warpcoil/cpp/generate/generate_value_serialization.hpp:27-71 | the accepted values are those in range: numbers, text lengths and element counts between minimum and maximum, valid texts, an index of one of the alternatives, and all parts in range |
| Reference.WrittenExactly | warpcoil/cpp/generate/generate_value_serialization.hpp:11-149 | what is written, accepted or not, told by recursion on the fields, elements and alternatives in their declared order: numbers, lengths and indices in the least width, up to the first part that is out of range |
| Reference.EveryAlternative | warpcoil/cpp/generate/generate_value_serialization.hpp:27-71 | every alternative of a variant can be sent, the last one too |
| Reference.FieldsTyped | warpcoil/cpp/generate/generate_value_serialization.hpp:137-148 | a value of a structure is one value of its own type for each field, in the order of the fields |
| Reference.StructureIsTuple | warpcoil/cpp/generate/generate_parser_type.hpp:10-93 | a structure is written, decoded and parsed as the tuple of the types of its fields in their declared order |
| WireFormat.DecodeWritten | warpcoil/cpp/generate/generate_value_serialization.hpp:11-149 | decoding by the documented format reads back every accepted value of every type and leaves the bytes after it |
| WireFormat.WriteOfDecoded | warpcoil/cpp/generate/generate_value_serialization.hpp:11-149 | the encoding is canonical: what decodes to an accepted value is what the serializer writes for it |
| WireFormat.PrefixFree | warpcoil/cpp/generate/generate_value_serialization.hpp:11-149 | no encoding is a prefix of the encoding of another value of the type |
| ParserMachine.RunSplit | warpcoil/cpp/begin_parse_value.hpp:45-102 | running the parser over two pieces is running it over the first and then going on |
| ParserMachine.RunIsRead | warpcoil/cpp/tuple_parser.hpp:17-140 | for every type and every string of bytes the nested machines give the verdict, value and consumption of a recursive descent, which drops a byte where a member that is not the last one does not consume it |
| ParserMachine.RunAllIsRead | warpcoil/cpp/vector_parser.hpp:46-72 | the same for the members of a tuple and the elements of a vector in sequence, from any position in it |
| Rejection.RejectsExactly | warpcoil/cpp/variant_parser.hpp:51-62 | a parser rejects some input if and only if it can get to a text, or to a variant of fewer than 256 alternatives |
| ParserMachine.RunUtf8IsRead | warpcoil/cpp/utf8_parser.hpp:15-64 | the same for a text: the length, then as many bytes, rejected at the last byte if they are not valid |
| ParserMachine.Step | warpcoil/cpp/integer_parser.hpp:14-25 | a parser that asks for more is again one that may be fed: no part of it has already completed, so the bounds that are asserted hold |
| ParserMachine.StepState | warpcoil/cpp/variant_parser.hpp:45-66 | after any byte the machine is in a state of a parser of its own type |
| ParserMachine.ImmediateIsStable | warpcoil/cpp/tuple_parser.hpp:38-47 | whether a parser completes before any byte depends on its type only and stays the same in every state it can be in; which types these are is `RoundTrip.ImmediateExactly` |
| Conformance.ReadConserves | warpcoil/cpp/tuple_parser.hpp:116-140 | for any type and any bytes: the value found has the type, its look-ahead is decided by the value, and the bytes used up are those of its encoding, without index bytes that are not read, plus the bytes lost |
| Conformance.EagerIsNeverLate | warpcoil/cpp/vector_parser.hpp:52-63 | a value of a type whose last part consumes a byte never needs look-ahead |
| Conformance.EagerExactly | warpcoil/cpp/vector_parser.hpp:52-63 | these are exactly the types, with an alternative in each variant, none of whose values needs look-ahead |
| Conformance.SafeExactly | warpcoil/cpp/tuple_parser.hpp:116-125 | a type whose variants all have an alternative, however many, is safe if and only if no value of it makes its parser lose a byte |
| Conformance.SafeRead | warpcoil/cpp/generate/generate_parser_type.hpp:10-93 | for a safe type the parser and the documented format agree on every string of bytes, valid or not, apart from the one byte of look-ahead |
| RoundTrip.ParsedExactly | warpcoil/cpp/generate/generate_parser_type.hpp:10-93 | for every type, accepted value and string of bytes: the parser gets the value out of the bytes if and only if each of its indices fits a byte and the bytes begin with its layout, numbers, lengths and texts as written, one byte for an index, any byte after a late member that is not the last, followed by one more if the value is late |
| RoundTrip.ReadBackExactly | warpcoil/cpp/generate/generate_value_serialization.hpp:11-149 | for every type: an accepted value is parsed back from its encoding, which is used up exactly, if and only if each of its indices fits a byte and its encoding has the length of its layout and begins with it |
| RoundTrip.RoundTripExactly | warpcoil/cpp/generate/generate_value_serialization.hpp:11-149 | an accepted value with no index wider than a byte is parsed back if and only if it has no part that loses a byte |
| RoundTrip.SafeRoundTripExactly | warpcoil/cpp/variant_parser.hpp:25-66 | an accepted value of a type that loses no byte is parsed back if and only if no variant in it has an index wider than a byte |
| RoundTrip.LayoutBalances | warpcoil/cpp/tuple_parser.hpp:116-140 | encoding and layout are equally long if and only if the parser loses as many bytes as there are index bytes that it does not read |
| RoundTrip.ReadBackBalances | warpcoil/cpp/variant_parser.hpp:25-66 | hence any value that is parsed back from its encoding, with or without look-ahead, has as many of the one as of the other; when it is parsed back is `RoundTrip.ReadBackExactly` |
| RoundTrip.WideVariantNeverRoundTrips | warpcoil/cpp/variant_parser.hpp:25-66 | a variant of more than 256 alternatives is written with an index wider than the byte that is read: no value of any alternative but the first is ever parsed from its encoding, with whatever is left over |
| RoundTrip.WideVariantFirstAlternative | warpcoil/cpp/variant_parser.hpp:25-66 | a value of the first alternative is parsed back exactly when the rest of the index followed by its encoding is as long as its layout and begins with it |
| RoundTrip.NumberIsNotReadBack | warpcoil/cpp/generate/generate_value_serialization.hpp:27-71 | the number 7 as the first of 257 alternatives comes back as the number 0, with a byte left over |
| RoundTrip.LossMakesUpForWidth | warpcoil/cpp/tuple_parser.hpp:116-140 | a value whose lost byte makes up for a wide index comes back by chance |
| RoundTrip.Timing | warpcoil/cpp/vector_parser.hpp:24-63 | every proper prefix leaves the parser waiting; the last byte completes it unless the value needs look-ahead |
| RoundTrip.ConformingRun | warpcoil/cpp/generate/generate_parser_type.hpp:10-93 | the machine's verdict, value and consumption for a conforming type are those of the documented format, on every string of bytes |
| RoundTrip.Canonical | warpcoil/cpp/generate/generate_type.hpp:12-27 | if the machine completes with a value in range it has consumed the bytes the serializer writes for it |
| RoundTrip.ImmediateIsEmpty | warpcoil/cpp/tuple_parser.hpp:168-183 | a type whose parser completes immediately has one value, which is encoded as nothing |
| RoundTrip.ImmediateExactly | warpcoil/cpp/begin_parse_value.hpp:30-43 | for every type: an accepted value is found before any byte arrives if and only if it is encoded as nothing and loses no byte |
| RoundTrip.ImmediateOnly | warpcoil/cpp/begin_parse_value.hpp:30-43 | and when anything is found then, it is the only value of the type, and is encoded as nothing |
| RoundTrip.ParseMonotone | warpcoil/cpp/begin_parse_value.hpp:44-102 | bytes that arrive after the decision do not change it |
| RoundTrip.ParseOfPrefix | warpcoil/cpp/begin_parse_value.hpp:27-105 | no portion of a stream that starts with an encoding makes the operation fail or complete with anything else, and one byte more than the encoding completes it |
| Parsers.IntegerParser.ParseByte | warpcoil/cpp/integer_parser.hpp:14-25 | shifting in a byte is the machine's step |
| Parsers.Utf8Parser.ParseByte | warpcoil/cpp/utf8_parser.hpp:15-64 | filling the string in place and checking it at its last byte is the machine's step |
| Parsers.VectorParser.ParseByte | warpcoil/cpp/vector_parser.hpp:14-73 | the length and then one element parser after the other is the machine's step |
| Parsers.TupleParser.ParseByte | warpcoil/cpp/tuple_parser.hpp:17-140 | switching from member to member and reporting consumption of the last one is the machine's step |
| Parsers.VariantParser.ParseByte | warpcoil/cpp/variant_parser.hpp:14-97 | replacing the index parser by that of the chosen alternative is the machine's step |
| Parsers.NewParser | warpcoil/cpp/generate/generate_parser_type.hpp:10-93 | the parser object for a type is in the machine's initial state for that type; a structure's is that of the tuple of its fields in order (`Reference.StructureIsTuple`) |
| Parsers.Node.CheckForImmediateCompletion | warpcoil/cpp/tuple_parser.hpp:38-47 | asks the current member of a parser of one member, in whatever state it is; the machine's answer, which is decided by `RoundTrip.ImmediateExactly` |
| ParseOperations.ParseOperation.Start | warpcoil/cpp/begin_parse_value.hpp:27-105 | one round over the buffer: completes with the value and consumes exactly its bytes, rejects and consumes nothing, or uses up the buffer and waits, as the bytes given so far demand |
| ParseOperations.ParseOperation.Drain | warpcoil/cpp/begin_parse_value.hpp:44-104 | the loops over the pieces of the buffer count what is consumed |
| ParseOperations.ParseOperation.OnRead | warpcoil/cpp/begin_parse_value.hpp:107-119 | a read goes on where the last round has stopped |
| ParseOperations.BeginParseValue | warpcoil/cpp/begin_parse_value.hpp:135-143 | for every way of cutting the stream into reads: the same value and the same bytes left over, in the buffer or unread, the same rejection, or the same wait |
| WriterModel.StepKeeps | warpcoil/cpp/buffered_writer.hpp:28-67 | every append, send, completion, call and continuation keeps conservation, order and acknowledgement, also when handlers append and send again |
| WriterModel.BytesAreConserved | warpcoil/cpp/buffered_writer.hpp:166-198 | over every run the writes in order and then the buffer are everything appended, no write is empty, and at most one has not completed |
| WriterModel.CalledInOrder | warpcoil/cpp/buffered_writer.hpp:98-105 | over every run the calls made are the first registrations in their order, each once, and all of them when nothing is in flight or due |
| WriterModel.Acknowledged | warpcoil/cpp/buffered_writer.hpp:202-231 | a handler gets the code of the write that carried the last byte appended before its registration, and by then finished writes hold everything appended before it |
| WriterModel.WriteTakesAll | warpcoil/cpp/buffered_writer.hpp:183-198 | a write is started exactly when something is sent while none is in flight or due, or when one that was due goes on, and it takes everything appended and not yet written |
| WriterModel.NextIsDue | warpcoil/cpp/buffered_writer.hpp:200-231 | after a write the next one is due exactly when somebody has sent something since it was started |
| WriterModel.AssertionsHold | warpcoil/cpp/buffered_writer.hpp:183-198 | a write is continued only with something to write and handlers to call |
| BufferedWriters.ResultHandler.HandleResult | warpcoil/cpp/buffered_writer.hpp:98-105 | the recursion along the chain, kept newest first, calls the oldest handler first |
| BufferedWriters.BufferedWriter.SendBuffer | warpcoil/cpp/buffered_writer.hpp:28-67 | starting a write, or putting the handler at the head of the chain while one is in flight, is the machine's step |
| BufferedWriters.BufferedWriter.FinishSend | warpcoil/cpp/buffered_writer.hpp:200-231 | the completion's three cases are the machine's step |
| BufferedWriters.BufferedWriter.ContinueSend | warpcoil/cpp/buffered_writer.hpp:183-198 | the next write takes the whole buffer and the whole chain |
| Messages.HeaderWritten | warpcoil/cpp/generate/generate_serialization_client.hpp:82-99 | what the client writes between the first byte and the arguments, id, name length and name, is the encoding of the header the splitter parses |
| Messages.SameMessage | warpcoil/cpp/client_pipeline.hpp:33-46 | two messages that begin the same bytes are the same message and leave the same rest |
| Messages.UniqueSplit | warpcoil/cpp/client_pipeline.hpp:33-56 | bytes split into whole messages in one way only |
| Framing.RequestOnWire | warpcoil/cpp/client_pipeline.hpp:32-57 | a request adds to the stream the byte 0, the id in 8 bytes, the length of the name in one, the name, and the arguments up to the first part out of range |
| Framing.ResponseOnWire | warpcoil/cpp/generate/generate_serialization_server.hpp:191-228 | a result adds the byte 1, the id of its request in 8 bytes, and the result up to the first part out of range |
| Framing.TypeIsDispatched | warpcoil/cpp/message_splitter.hpp:130-166 | of the first byte of a message 0 leads to the header of a request and 1 to that of a response if somebody waits for it, and everything else is an error |
| Framing.RequestIsDispatched | warpcoil/cpp/generate/generate_serialization_server.hpp:84-128 | after the id in 8 bytes and the name the arguments of the method of that name are read, with the input locked, from the byte after the name |
| Framing.UnknownIsFatal | warpcoil/cpp/generate/generate_serialization_server.hpp:125-128 | a name that no method has ends the run before the implementation is called |
| Framing.ResponseIsDispatched | warpcoil/cpp/expected_response_registry.hpp:91-113 | after the id of a pending request in 8 bytes its entry is taken out and the result read as its own type, with the input locked |
| Examples.TextRequest | test/valid_encoding.cpp:111-121 | the request of the test, byte by byte |
| Examples.TextResponse | test/valid_encoding.cpp:111-121 | its response, byte by byte |
| Examples.VectorBytes | test/valid_encoding.cpp:123-137 | the bytes of a vector of three numbers |
| Examples.VariantBytes | test/valid_encoding.cpp:197-226 | the bytes of a number and of a text as alternatives |
| Examples.FieldsFollowEachOther | warpcoil/cpp/generate/generate_value_serialization.hpp:137-148 | a structure of two fields of different width, byte by byte |
| Examples.IntegerSizes | test_interfaces/generate.cpp:57-67 | the widths 1, 2, 4 and 8 of the four parameters, and their bytes |
| Examples.AtypicalNumbers | test/invalid_encoding.cpp:123-139 | of the numbers of 16 bits 1 to 1000 are written in two bytes, and 0 and all others are refused |
| Examples.TooLong | test/invalid_encoding.cpp:104-121 | a text of 256 bytes and a vector of 256 elements are refused where 255 are allowed |
| Examples.UnknownAlternative | test/invalid_encoding.cpp:47-57 | an index of no alternative is rejected at its byte |
| Examples.InvalidText | test/invalid_encoding.cpp:41-45 | a text with the byte 0xff is rejected |
| Examples.ExcessStays | test/begin_parse_value.cpp:43-67 | a number of 4 bytes is parsed from whatever follows it, which stays |
| Examples.NothingToRead | test_interfaces/generate.cpp:31-32 | the arguments of a method whose one parameter is an empty tuple are complete before any byte |
| Examples.EmptyElementsLoseBytes | warpcoil/cpp/vector_parser.hpp:52-63 | of two elements that are encoded as nothing the first costs a byte |
| ConnectionInvariant.StepKeeps | warpcoil/cpp/message_splitter.hpp:28-303 | every step of an endpoint, with re-entrant requests, serves and results at every call, keeps the invariant of splitter, registry and server |
| ConnectionInvariant.SingleReader | warpcoil/cpp/message_splitter.hpp:87-106 | over every run the assertions on what splitter and registry wait for, lock and parse hold (those that `begin_parse_message` is set are `ConnectionInvariant.NoLostWakeUp`), a header parse and a locked input exclude each other, and at most one operation reads |
| ConnectionInvariant.NoLostWakeUp | warpcoil/cpp/message_splitter.hpp:281-302 | over every run in which each response is that to a pending request, whatever else fails: `begin_parse_message` is set whenever it is called, and until an error stops the end whoever waits while nothing runs is about to be served: a header is being read, or a body is and the next header parse is set up |
| LostWakeUp.WakeUpIsLost | warpcoil/cpp/message_splitter.hpp:250-254 | after the response to an unknown request it can be unset: a run in which a callback that fails makes a request after that, and the response to this one is read |
| ConnectionInvariant.EveryWaiterIsCalled | warpcoil/cpp/message_splitter.hpp:130-279 | over every run each message type accepted leads to a call of the waiter of its kind, in order; every waiter is called once, with a header or an error, or still registered; every `serve_one_request` comes to the implementation or is told of an error, but for one going on; nobody who waited at an error is left waiting |
| ConnectionInvariant.NothingIsReadUnasked | warpcoil/cpp/expected_response_registry.hpp:137-146 | over every run the stream is read only for a request that is pending or whose result is being read, or for a `serve_one_request` that has not come to its implementation |
| Serving.ReportedExactly | warpcoil/cpp/generate/generate_serialization_server.hpp:182-251 | over every run, whatever fails: the callback of the `serve_one_request` that led to a call of the implementation is called exactly once when the call has been answered, unless the response is still with the writer, and never more; the response was written, refused, or replaced by an error |
| Calling.EveryCallRuns | warpcoil/cpp/expected_response_registry.hpp:57-67 | in every step the application's code runs once for each callback and each call of the implementation that is made, and for nothing else |
| ConnectionInvariant.FailStop | warpcoil/cpp/message_splitter.hpp:265-279 | after an error of the splitter, or a result that cannot be parsed, no header parse is ever started again and nothing is read, in any continuation |
| Stopping.StopsExactly | warpcoil/cpp/expected_response_registry.hpp:97-113 | in every state and after whatever errors, a step stops the end in that way if and only if it meets an error, as the bytes tell, that is neither the id of no pending request nor arguments that cannot be parsed or read; the record of the run notes exactly the errors, and exactly the unknown ids |
| Stopping.UnknownResponseReadsOn | warpcoil/cpp/expected_response_registry.hpp:100-106 | after the first id of no pending request every callback fails, and then the next header is read, from where the result of the unknown response is, if and only if a request is waited for |
| Stopping.BadArgumentsReadOn | warpcoil/cpp/generate/generate_serialization_server.hpp:153-172 | after arguments that cannot be parsed, when no unknown id has come before, the next header is read, from what is left of them, if and only if a response is waited for |
| ConnectionAccounting.StepAccounted | warpcoil/cpp/expected_response_registry.hpp:20-67 | a step moves an id from one place to another and never makes one pending again |
| ConnectionAccounting.CalledAtMostOnce | warpcoil/cpp/expected_response_registry.hpp:57-67 | over every run a callback is called or dropped at most once, only for an issued id that is no longer pending, and at most one is dropped |
| ConnectionAccounting.EveryIdIsSomewhere | warpcoil/cpp/expected_response_registry.hpp:87-147 | when nothing runs every issued id is in exactly one place: answered, failed, dropped, refused, pending, or the one whose result is being read |
| ConnectionAccounting.PendingIsOutstanding | warpcoil/cpp/expected_response_registry.hpp:52-55 | the registry holds as many entries as there are requests issued whose callback was neither called nor dropped nor is about to be, and whose result is not being read |
| Failures.EveryPendingCallbackFails | warpcoil/cpp/expected_response_registry.hpp:57-67 | over every run the callbacks called with an error are those that were pending at it, in the order of their ids; all of them when nothing runs |
| Failures.FailuresAscend | warpcoil/cpp/expected_response_registry.hpp:57-67 | the ids one error fails ascend over the run, also when callbacks request and fail in turn |
| Failures.FailsExactlyOnce | warpcoil/cpp/expected_response_registry.hpp:57-67 | whatever step an error of the registry happens in, each callback pending before it has been called with that error exactly once, and with nothing else, at every later point of rest; which steps these are is `Hanging.RaisesExactly` |
| Hanging.RaisesExactly | warpcoil/cpp/message_splitter.hpp:265-279 | the registry hears of an error in a step if and only if the step meets one in a result, or in a header with a response waiter; then all pending callbacks are to fail, otherwise the error leaves them all pending |
| Hanging.OnceOrNever | warpcoil/cpp/message_splitter.hpp:265-279 | whatever step an error is met in, each callback pending before it has been called with it exactly once, and with nothing else, at every later point of rest, if the error is one of those; otherwise, unless the end reads on, it is never called nor dropped, in any continuation |
| Hanging.NeverCalled | warpcoil/cpp/message_splitter.hpp:49-60 | a callback that is pending once the end has stopped is never called nor dropped, in any continuation |
| Hanging.LaterRequestHangs | warpcoil/cpp/client_pipeline.hpp:32-57 | nor is the callback of any request that is sent after that |
| Hanging.HangsForEver | warpcoil/cpp/expected_response_registry.hpp:137-146 | a run on a valid stream in which a request is pending when the end stops and its callback is never called, whatever happens then |
| Progress.UnwindingEnds | warpcoil/cpp/message_splitter.hpp:114-279 | no chain of completion handlers is endless: at most as many steps follow as the bytes in the buffer, the calls under way and the pending callbacks allow |
| Progress.ComesToRest | warpcoil/cpp/begin_parse_value.hpp:27-105 | from any state the library, called by an application that only returns, comes to a point where nothing runs, within that bound |
| Peer.PeerStep | warpcoil/cpp/message_splitter.hpp:130-263 | every step of an end that makes and serves requests, with responses and requests in any order and cut anywhere, keeps its position in the stream, parses each body with the parser of its own request or method, and accounts for every call; but for a step that decodes the type of a message nobody waits for, which is an error |
| Demultiplexing.StepHungry | warpcoil/cpp/begin_parse_value.hpp:103-104 | an operation waits for a read only when the buffer is used up and what it was given does not decide it |
| Demultiplexing.Demultiplexed | warpcoil/cpp/expected_response_registry.hpp:20-147 | over every run of an end that makes and serves requests, until it meets an error: each callback gets only the value that a response to its own id carries, at most once; the implementation is called for the first requests in order; nothing fails and no byte is lost between messages; when all bytes have arrived everything has been handed over, but for a last message that needs another byte |
| Peer.UnwantedIsUntimely | warpcoil/cpp/message_splitter.hpp:136-160 | on a valid stream nobody waits for the next message exactly when it is a response that comes after a result and before the next response is waited for, or a request that comes while none is served or between the arguments of one and its implementation |
| Demultiplexing.FailsExactly | warpcoil/cpp/message_splitter.hpp:136-160 | on a valid stream a step meets an error if and only if it decodes the type of a message that nobody waits for, which is at one of these times; it hands nothing over |
| Demultiplexing.ClientAndServerDemultiplex | warpcoil/cpp/message_splitter.hpp:136-160 | an end that only makes requests, or only serves them, meets no error on any valid stream |
| Output.StepFramed | warpcoil/cpp/client_pipeline.hpp:33-56 | every step keeps what is sent equal to the whole messages built, each with its handler: the requests in order with the ids 0, 1, 2 and so on, the results in order with the ids of their calls, no call answered twice |
| Output.FrameIntegrity | warpcoil/cpp/generate/generate_serialization_server.hpp:191-247 | over every run with requests and responses on one writer: the writes and then the buffer are whole messages in one way only, the requests and results in their order |
| Messages.RefusedBreaks | warpcoil/cpp/client_pipeline.hpp:42-50 | after whole messages, the bytes of one that was refused half way are not the bytes of any list of whole messages |
| Output.WholeIffRequestBuilt | warpcoil/cpp/client_pipeline.hpp:42-50 | after a request what is sent is some list of whole messages if and only if the request could be built; a refused one leaves its beginning in the buffer |
| Output.WholeIffResponseBuilt | warpcoil/cpp/generate/generate_serialization_server.hpp:209-228 | the same for a result that cannot be serialized |
| EndToEnd.MoveJoint | warpcoil/cpp/client_pipeline.hpp:32-57 | every move of either end keeps the invariant of both together, or decodes the type of a message its end does not wait for and meets an error |
| EndToEnd.MoveConsistent | warpcoil/cpp/message_splitter.hpp:265-279 | every move, also of or beside an end that has met an error, keeps what was handed over, what is sent and every account in order; an end that has met none does so exactly by decoding such a type |
| Handing.StepHanded | warpcoil/cpp/expected_response_registry.hpp:137-147 | a step in which nothing is parsed, as all are after an error has stopped the end, hands over only values that responses of the peer carry and calls that its requests ask for, in order |
| EndToEnd.ResponseMayArrive | warpcoil/cpp/generate/generate_serialization_server.hpp:197-228 | a response an end builds, also one that has met an error, answers a request its peer has issued, with that method's result type, and was not answered before |
| EndToEnd.EachCallGetsItsOwnResult | warpcoil/cpp/expected_response_registry.hpp:20-147 | over every interleaving of two ends that both may request and serve, every cut into reads and any number of pipelined calls, also after errors: at either end a callback is called at most once, with an error or with the one result the peer's implementation gave for the call's own arguments; the implementation is called for the requests in order, once each; and at an end that has met no error nothing fails, whatever the other has met |
| EndToEnd.SystemFailsExactly | warpcoil/cpp/message_splitter.hpp:136-160 | and a move of an end that has met no error meets one if and only if it decodes the type of a message the end does not wait for, at one of the times listed |
| EndToEnd.ClientAndServer | warpcoil/cpp/expected_response_registry.hpp:20-147 | a client and a server meet no error over any of their interleavings, so that every call gets its own result |
| Delivery.NothingIsLeft | warpcoil/cpp/begin_parse_value.hpp:27-105 | when every byte has arrived and nothing is left to run, every result given at either end has reached its callback and an end that serves has been called for every request, but for a last message that needs one byte after it |
| Liveness.EverythingCanBeDelivered | warpcoil/cpp/message_splitter.hpp:281-302 | from every state that a client and a server can reach, without another request or result, moves lead to one where everything sent has arrived and been handed over at both ends and the server waits for the next request: nothing gets stuck |
| Duplex.FailsOnNextResponse | warpcoil/cpp/expected_response_registry.hpp:137-146 | while a request is waited for, the run fails after a result if and only if the next byte has arrived and is not that of a request |
| Duplex.FailsOnNextRequest | warpcoil/cpp/generate/generate_serialization_server.hpp:153-172 | while a response is waited for, the run fails after the arguments of a request if and only if the next byte has arrived and is not that of a response |
| Duplex.PendingResponseIsNotRead | warpcoil/cpp/message_splitter.hpp:139-144 | a run on a valid stream in which two responses to pending requests begin to arrive together and the end fails |
| Duplex.PendingRequestIsNotRead | warpcoil/cpp/message_splitter.hpp:150-155 | the same with two requests of the peer while a response is awaited |
| MessageSplitters.MessageSplitter.WaitForResponse | warpcoil/cpp/message_splitter.hpp:38-60 | registers the waiter and starts a header parse unless one is under way or the input is locked |
| Callers.EveryCallIsAllowed | warpcoil/cpp/expected_response_registry.hpp:30-139 | over every run, whatever fails, what the objects' methods require holds of the endpoint wherever they are called next; as long as each response is that to a pending request `begin_parse_message` is set where it is called |
| MessageSplitters.MessageSplitter.WaitForRequest | warpcoil/cpp/message_splitter.hpp:62-85 | the same for requests |
| MessageSplitters.MessageSplitter.UnlockInput | warpcoil/cpp/message_splitter.hpp:95-106 | starts a header parse if anybody waits |
| MessageSplitters.MessageSplitter.OnMessageType | warpcoil/cpp/message_splitter.hpp:130-166 | on 1 parses on for a response waiter and on 0 for a request waiter, and is the machine's error step otherwise |
| MessageSplitters.MessageSplitter.OnError | warpcoil/cpp/message_splitter.hpp:265-271 | takes the response waiter out, first, and notes whether a request waiter is to follow |
| ResponseRegistries.ExpectedResponseRegistry.ExpectResponse | warpcoil/cpp/expected_response_registry.hpp:20-50 | the entry is made unless the id has one, and a header parse begun if none was; the machine's step |
| ResponseRegistries.ExpectedResponseRegistry.PendingRequests | warpcoil/cpp/expected_response_registry.hpp:52-55 | tells how many requests have been issued whose callback was neither called nor dropped nor is about to be, and whose result is not being read |
| ResponseRegistries.ExpectedResponseRegistry.OnResponseHeader | warpcoil/cpp/message_splitter.hpp:232-252 | the splitter takes its response waiter out and calls it, and the registry goes on with the id; the machine's step |
| ResponseRegistries.ExpectedResponseRegistry.OnError | warpcoil/cpp/expected_response_registry.hpp:57-67 | empties the registry before any callback is called; the machine's step |
| ResponseRegistries.ExpectedResponseRegistry.OnRequestId | warpcoil/cpp/expected_response_registry.hpp:91-113 | the entry of the id is taken out and its result parsed with the input locked, or all fail; the machine's step |
| ResponseRegistries.ExpectedResponseRegistry.OnResult | warpcoil/cpp/expected_response_registry.hpp:129-137 | the input is unlocked first; the machine's step |
| ResponseRegistries.ExpectedResponseRegistry.AfterResult | warpcoil/cpp/expected_response_registry.hpp:138-146 | then the next header is waited for, and only then the callback is called; the machine's step |
| ResponseRegistries.ExpectedResponseRegistry.OnResultError | warpcoil/cpp/expected_response_registry.hpp:129-136 | the callback whose result cannot be parsed is dropped, the others fail; the machine's step |
| ClientPipelines.ClientPipeline.Request | warpcoil/cpp/client_pipeline.hpp:32-57 | numbers, appends, sends and registers a request, or stops when it cannot be built; the machine's step on splitter, registry and writer; the bytes are those of `Framing.RequestOnWire` |
| ClientPipelines.ClientPipeline.BuildRequest | warpcoil/cpp/generate/generate_serialization_client.hpp:82-120 | the emitted builder writes the name with its length and the arguments up to the first that is rejected |
| GeneratedServers.AsyncServer.ServeOneRequest | warpcoil/cpp/generate/generate_serialization_server.hpp:71-84 | waits for a request; the machine's step |
| GeneratedServers.AsyncServer.OnRequest | warpcoil/cpp/generate/generate_serialization_server.hpp:84-128 | locks the input and parses the arguments of the method of that name, or ends with an exception; the machine's step |
| GeneratedServers.AsyncServer.OnArgument | warpcoil/cpp/generate/generate_serialization_server.hpp:153-172 | unlocks the input before the implementation is called; the machine's step |
| GeneratedServers.AsyncServer.OnResult | warpcoil/cpp/generate/generate_serialization_server.hpp:182-251 | appends type, id and result and sends them, or stops when the result cannot be serialized; the machine's step; the bytes are those of `Framing.ResponseOnWire` |

## Left out

- EndToEnd.EachCallGetsItsOwnResult: all builds succeed, because a refused message breaks the stream it shares (`Output.WholeIffRequestBuilt`); the streams do not break; result and argument types lose no byte and their variants have at most 256 alternatives, because others have values that are not read back (`RoundTrip.ReadBackExactly`).
- More than 2^64 requests of one end: the ids would repeat.
- ParseOperations.ParseOperation.Start: how the stream buffer cuts its bytes into pieces is not modelled; any pieces are allowed.
- Write errors in `Connection`: a failed write resets the registry while the splitter still waits; it is taken as the end of the run. `WriterModel` has the error codes of writes and who gets them.
- More than one `serve_one_request` before the implementation is called: two waiters registered while the input is locked would share one start of a header parse.
- In `Connection` a parse operation is represented by the bytes it was given, which determine its state; the classes of `Parsers` and `ParseOperation` prove that this is what the objects do.
- The order of fields and the storage of handlers: waiters and callbacks are ids in a record of the run, not function objects; their lifetime, `asio_handler_invoke` and completion tokens are not modelled.
- Sockets, Boost.Asio and Beast: a read returns some bytes of the stream or an error, a write completes later and once.
- The text, indentation and names of generated C++ code, and the emission of nested structures; what the generated code does is modelled.
- Variants with two alternatives of the same C++ type: an alternative is identified by its position.
- The UTF-8 library is not part of this model; `Utf8.IsValid` is the grammar of section 4 of RFC 3629.
- The assertion that a vector's capacity equals the length reserved; the model counts to the length.
- An unknown method name ends the run, as the exception of the emitted server does.
- warpcoil/javascript.hpp: a partial implementation whose meaning depends on JavaScript.
- warpcoil/future.hpp, warpcoil/then.hpp, warpcoil/beast.hpp, warpcoil/cpp/wrap_handler.hpp, `clone` and `get_parameter_type`: they would add only easy members.
