# RSocket RPC for Kotlin: what the generated calls and the generator's text keep

A proto service is turned by the C++ generator into a Kotlin interface, a client and a server.
The client picks one of four RSocket interactions, puts service, method, tracing map and user
metadata into a length-prefixed frame and sends it; the server finds the service by the frame,
then the method by its name. This project models both sides of that path and the text functions
of the generator, and proves properties that hold across them.

- `Utf8`, `Buffers`, `Frames`, `Tracing`: the frame and the tracing map inside it, byte by byte.
- `StreamSplitter`, `RequestHandling`, `TraceSubscriber`: the runtime around it. Interleavings are
  runs of state machines; the classes beside them are proved to take their steps, call by call.
- `Names`, `Lines`, `Kotlindoc`, `DocComments`, `KotlinLexer`: identifiers, line splitting, escaping
  and doc comments, against a lexer for nested Kotlin comments and brackets.
- `Interactions`, `Generator`, `Plugin`: the choice of interaction, the three printers, the files.
- `EndToEnd`: the generated client and server put together.

How the source is read:

- Text is a sequence of Unicode scalar values, UTF-8 is that of section 3 of RFC 3629, and decoding
  replaces every maximal ill-formed subpart; the JVM's decoders may group ill-formed bytes otherwise,
  an encoded surrogate for example. Character references are those of section 5.3 of
  HTML 4.01. Kotlin comments follow its language specification (Lexical grammar, "Whitespace and
  comments"): block comments nest.
- A buffer's writer index is the number of its bytes, and a read outside them fails. A received
  frame is a wrapped buffer, so its capacity is its length.
- An exception is an `Err` value or a `Threw` result. A map's iteration order is a parameter.
- Lengths are written as unsigned and read as signed 16-bit values. `requireUnsignedShort` admits
  up to 65535 bytes, but the getters give back at most 32767; the round trips are stated with this
  bound and with what happens beyond it.
- The value in a tracing entry is written with the key's length as reserve
  (rsocket-rpc-core/src/main/kotlin/io/rsocket/rpc/kotlin/tracing/Tracing.kt:68). A reserve only
  sizes the buffer; the model writes the whole value, as the library call does.
- The characters of names are classified as in the C locale, and `word[0]` of an empty `std::string` is
  its terminating NUL.
- The dispatch statements ask that the interface compiles, that is, that no two methods share a
  constant name: otherwise there is no generated program. Method names of the usual form always do.
- The printers are reduced to what counts for lexing: comment text in full, of the code its
  brackets. The stubs, constants and arms that the same loops print are returned as values.
- Getters and `DeserializeTracingMetadata` modify nothing that exists, so they can be called in any
  order and as often as wanted.

## Model

| member | source | states |
|---|---|---|
| `EndToEnd.CallReachesItsMethod` | rsocket-rpc-protobuf/src/kotlin_plugin/cpp/kotlin_generator.cpp:716-793 | For any services of which the called one is registered last under its name, any methods, either choice of tracer, and any names and tracing map that the stub can encode: the stub of a method that is not client streaming, calling with the frame it builds, invokes that method's own arm in its own service, the one under its declared constant that calls the function declared for it, under the same interaction, with the data sent and, as the span context it is traced under, the entries left of the map, if and only if both names have at most 32767 bytes and, with a tracer, the section's length as read back cuts it between entries; otherwise the answer is an error, of the handler for the service's name and of the service for the rest |
| `EndToEnd.ChannelReachesItsMethod` | rsocket-rpc-protobuf/src/kotlin_plugin/cpp/kotlin_generator.cpp:655-711 | For every client streaming method, any names, and every interleaving of source, tail consumer, deliveries and cancel: nothing is invoked for an empty list, before a payload comes, or if the names cannot be encoded; otherwise, if and only if both names have at most 32767 bytes, the method's own arm, calling the function declared for it, is handed the messages sent, in order and cut where delivery stands, all of them with the end of the stream once nothing is pending and nothing was cancelled; an error is the answer for longer names; only the first payload carries a frame, and no span context comes with it |
| `EndToEnd.ChannelArrivesWhole` | rsocket-rpc-protobuf/src/kotlin_plugin/cpp/kotlin_generator.cpp:1152-1217 | For every client streaming method with names of at most 32767 bytes, every non-empty message list and every interleaving in which the tail's consumer attaches and does not cancel: once the source has been sent and enough deliveries were tried, the method has been handed every message in order and then the source's own end |
| `EndToEnd.HeadReachesArm` | rsocket-rpc-protobuf/src/kotlin_plugin/cpp/kotlin_generator.cpp:1152-1217 | For all names that can be encoded: a head payload with a method's frame is routed to that method's arm, under its declared constant and calling its declared function, with the head put back in front of the rest, if and only if both names have at most 32767 bytes |
| `EndToEnd.ChannelAgreement` | rsocket-rpc-protobuf/src/kotlin_plugin/cpp/kotlin_generator.cpp:1220-1238 | The handler and the service it picks give the same channel answer if and only if a payload came or the service has channel methods |
| `EndToEnd.ChannelRun` | rsocket-rpc-core/src/main/kotlin/io/rsocket/rpc/kotlin/util/StreamSplitter.kt:30-46 | On a client channel the splitter's head is the first payload with the frame; head, delivered tail, pending tail and what a cancel dropped are the payloads sent so far; names that cannot be encoded give no head |
| `EndToEnd.NameFindsItsArm` | rsocket-rpc-protobuf/src/kotlin_plugin/cpp/kotlin_generator.cpp:1005-1029 | In the table of its call, a method's name leads the `when` to that method's arm and no other |
| `EndToEnd.DispatchFindsArm` | rsocket-rpc-protobuf/src/kotlin_plugin/cpp/kotlin_generator.cpp:996-1036 | Once the service's name has been read back: a handler invokes the arm that calls the declared function, with the span context it read, if and only if it can read the method name and, with a tracer, the tracing section; otherwise it answers with the reading error |
| `EndToEnd.DispatchByName` | rsocket-rpc-protobuf/src/kotlin_plugin/cpp/kotlin_generator.cpp:986-1217 | For any frame and call, by the methods declared: unsupported if no method makes that call; else the error of the tracing section, then of the method name, if one does not read; else the arm of the method of that call and name, and unsupported exactly if there is none |
| `EndToEnd.UnknownMethodIsRefused` | rsocket-rpc-protobuf/src/kotlin_plugin/cpp/kotlin_generator.cpp:1027-1206 | Through the handler: a frame for a name that no method of the call has invokes nothing; it is unsupported, or an error if a name or the tracing section does not read |
| `EndToEnd.FilesAgree` | rsocket-rpc-protobuf/src/kotlin_plugin/cpp/kotlin_generator.cpp:319-342 | Interface, client and server of a service agree on every method: the stub has the declared function's name and shape, stub and constant share the constant's name, and the arm the method's name leads to calls the declared function |
| `EndToEnd.FullNamesDiffer` | rsocket-rpc-protobuf/src/kotlin_plugin/cpp/kotlin_generator.cpp:316-317 | Full service names are package, dot and name, or the name alone without a package, and differ exactly where package or name does |
| `EndToEnd.ConstantHoldsName` | rsocket-rpc-protobuf/src/kotlin_plugin/cpp/kotlin_generator.cpp:319-324 | Each declared constant resolves to the name of its own method |
| `EndToEnd.UsualNamesCompile` | rsocket-rpc-protobuf/src/kotlin_plugin/cpp/kotlin_generator.cpp:91-93 | Distinct method names of the usual form give distinct constants, so the interface compiles |
| `EndToEnd.Generate` | rsocket-rpc-protobuf/src/kotlin_plugin/cpp/kotlin_generator.cpp:1309-1458 | The three printers, each on a new file, give the constants, stubs and tables the end-to-end statements are about |
| `EndToEnd.StubFrame` | rsocket-rpc-protobuf/src/kotlin_plugin/cpp/kotlin_generator.cpp:730-737 | The deferred call fails exactly if a key, value, service or method has more than 65535 bytes; with the length of the first such text; otherwise its frame is the encoding of service, constant, tracing map and user metadata |
| `EndToEnd.ChannelFunction.Apply` | rsocket-rpc-protobuf/src/kotlin_plugin/cpp/kotlin_generator.cpp:672-699 | The first application encodes the frame for its payload and fails exactly if the names cannot be encoded; every later one puts nothing |
| `EndToEnd.MapChannel` | rsocket-rpc-protobuf/src/kotlin_plugin/cpp/kotlin_generator.cpp:664-706 | Mapping a message list gives one payload a message, in order, the frame on the first alone, then the terminal signal; if the names cannot be encoded and there is a message, an error is all that is sent |
| `RequestHandling.RequestHandlingRSocket.constructor` | rsocket-rpc-core/src/main/kotlin/io/rsocket/rpc/kotlin/rsocket/RequestHandlingRSocket.kt:37-42 | Registering a list leaves each name standing for the last service of that name |
| `RequestHandling.RequestHandlingRSocket.AddService` | rsocket-rpc-core/src/main/kotlin/io/rsocket/rpc/kotlin/rsocket/RequestHandlingRSocket.kt:44-47 | Adds or replaces one registration and leaves the others |
| `RequestHandling.RequestHandlingRSocket.Handle` | rsocket-rpc-core/src/main/kotlin/io/rsocket/rpc/kotlin/rsocket/RequestHandlingRSocket.kt:49-105 | The answer is the routed one; the payload is released exactly once when the handler answers with an error of its own (bad frame, unknown service, service threw) and not when a service takes it |
| `RequestHandling.RequestHandlingRSocket.HandleSplit` | rsocket-rpc-core/src/main/kotlin/io/rsocket/rpc/kotlin/rsocket/RequestHandlingRSocket.kt:107-126 | The same for the head of a channel, which is the only payload the handler releases |
| `RequestHandling.LastRegistrationWins` | rsocket-rpc-core/src/main/kotlin/io/rsocket/rpc/kotlin/rsocket/RequestHandlingRSocket.kt:35-47 | After any registrations a name is known exactly if it was registered, and stands for the last service registered under it |
| `RequestHandling.FrameFindsItsService` | rsocket-rpc-core/src/main/kotlin/io/rsocket/rpc/kotlin/rsocket/RequestHandlingRSocket.kt:49-67 | A frame for a name of at most 32767 bytes finds the service of that name or the error naming it; a frame for a longer name finds none, registered or not |
| `RequestHandling.HandlerIsTheService` | rsocket-rpc-core/src/main/kotlin/io/rsocket/rpc/kotlin/rsocket/RequestHandlingRSocket.kt:49-126 | For frames addressed to the service registered last under its name the handler answers as that service alone, on calls and channels, its exception becoming the error, if the name has at most 32767 bytes, and with a reading error if it has more |
| `RequestHandling.HandlerAnswersForNobody` | rsocket-rpc-core/src/main/kotlin/io/rsocket/rpc/kotlin/rsocket/RequestHandlingRSocket.kt:49-126 | Under any registrations: a frame whose service name does not read is answered with that error, and a name nobody has with the error that names it |
| `Interactions.PartitionMethods` | rsocket-rpc-protobuf/src/kotlin_plugin/cpp/kotlin_generator.cpp:962-984 | The four server tables are, in order, the methods whose client stub makes that call |
| `Interactions.TablesPartition` | rsocket-rpc-protobuf/src/kotlin_plugin/cpp/kotlin_generator.cpp:962-984 | Together the four tables hold every method exactly as often as it is declared |
| `Interactions.TablesKeepOrder` | rsocket-rpc-protobuf/src/kotlin_plugin/cpp/kotlin_generator.cpp:962-984 | Every method stands in the table of its client call, behind those declared before it |
| `Interactions.ShapesAgree` | rsocket-rpc-protobuf/src/kotlin_plugin/cpp/kotlin_generator.cpp:630-788 | For every method the client's operator chain leads from the payloads its RSocket call gives to the shape and messages the interface declares, and the server arm's chain from there to the shape and payloads its handler returns, each traced exactly once over its own items |
| `Interactions.CallByDeclaration` | rsocket-rpc-protobuf/src/kotlin_plugin/cpp/kotlin_generator.cpp:962-984 | Client streaming means a channel, server streaming alone a stream, and the option alone fire-and-forget; the interface gives a flow exactly for server streaming and no value exactly for fire-and-forget |
| `Generator.PrintInterface` | rsocket-rpc-protobuf/src/kotlin_plugin/cpp/kotlin_generator.cpp:292-367 | With comments stripped and whatever the comments hold, all brackets of the interface file match; the file is the doc comments of the service and of each method, in order, around the brackets of the code; the constants and signatures are those of the methods, in order |
| `Generator.PrintClient` | rsocket-rpc-protobuf/src/kotlin_plugin/cpp/kotlin_generator.cpp:369-833 | All brackets of the client file match, for any number and mix of methods; there is one stub a method, in order |
| `Generator.PrintServer` | rsocket-rpc-protobuf/src/kotlin_plugin/cpp/kotlin_generator.cpp:835-1307 | All brackets of the server file match, for any number and mix of methods; each table has one arm a method of that call, in order |
| `Generator.PrintSignature` | rsocket-rpc-protobuf/src/kotlin_plugin/cpp/kotlin_generator.cpp:338-362 | Prints the method's doc comment, from the leading comment or else the trailing one, and leaves the lexer inside the interface; name and result shape are the method's |
| `Generator.CommentStandsInFile` | rsocket-rpc-protobuf/src/kotlin_plugin/cpp/kotlin_generator.cpp:332-342 | The doc comment of every method stands whole in the interface, behind those of the methods before it |
| `Generator.PrintStub` | rsocket-rpc-protobuf/src/kotlin_plugin/cpp/kotlin_generator.cpp:493-794 | A stub leaves the lexer inside the class; its interaction, constant, declared shape and operators are the method's |
| `Generator.PrintHandler` | rsocket-rpc-protobuf/src/kotlin_plugin/cpp/kotlin_generator.cpp:986-1040 | A handler closes what it opens, with an empty table and with any other |
| `Generator.PrintArm` | rsocket-rpc-protobuf/src/kotlin_plugin/cpp/kotlin_generator.cpp:1173-1203 | An arm closes what it opens and names the constant and function of its method |
| `DocComments.DocCommentIsOneComment` | rsocket-rpc-protobuf/src/kotlin_plugin/cpp/kotlin_generator.cpp:240-263 | For every comment text and indentation the printed doc comment is one Kotlin comment: nesting depth exactly one from its opening to its last slash, which closes it |
| `DocComments.DocCommentReadsBack` | rsocket-rpc-protobuf/src/kotlin_plugin/cpp/kotlin_generator.cpp:216-263 | For every comment text, indentation and choice of tags the lines printed are the opening, the tag if asked for, one line for each non-empty line of the text in order, the tag and the closing; behind the asterisk, and one space exactly where a slash would follow it, each holds markup-free text that decodes to the line |
| `DocComments.WriteDocComment` | rsocket-rpc-protobuf/src/kotlin_plugin/cpp/kotlin_generator.cpp:265-290 | Prints the comment at the current indentation and leaves a lexer that was reading code where it was, whatever the comment holds |
| `DocComments.WriteDocCommentBody` | rsocket-rpc-protobuf/src/kotlin_plugin/cpp/kotlin_generator.cpp:240-263 | Prints the lines between optional tags, a line that starts with a slash kept off the asterisk |
| `DocComments.SafeInteriorIsOneComment` | rsocket-rpc-protobuf/src/kotlin_plugin/cpp/kotlin_generator.cpp:249-257 | Text without comment markers, closed by an asterisk and a slash, is one comment |
| `KotlinLexer.SafeTextStaysInside` | rsocket-rpc-protobuf/src/kotlin_plugin/cpp/kotlin_generator.cpp:158-172 | Text without comment markers never changes the comment depth |
| `KotlinLexer.CallsAreNested` | rsocket-rpc-protobuf/src/kotlin_plugin/cpp/kotlin_generator.cpp:704-711 | Call brackets of any number and depth leave the open brackets as they were |
| `Kotlindoc.EscapeKotlindoc` | rsocket-rpc-protobuf/src/kotlin_plugin/cpp/kotlin_generator.cpp:148-204 | Computes the escape from the state of an asterisk |
| `Kotlindoc.EscapeUndone` | rsocket-rpc-protobuf/src/kotlin_plugin/cpp/kotlin_generator.cpp:148-204 | Decoding the character references gives back every input, from every state |
| `Kotlindoc.EveryAmpersandStartsAReference` | rsocket-rpc-protobuf/src/kotlin_plugin/cpp/kotlin_generator.cpp:191-198 | Every ampersand of the output starts one of the seven references |
| `Kotlindoc.EscapeIsPerCharacter` | rsocket-rpc-protobuf/src/kotlin_plugin/cpp/kotlin_generator.cpp:148-204 | The output grows by one piece a character: a reference to it, by name or by its number, exactly where it means something in HTML, KDoc or Kotlin or would complete a comment marker, and else the character itself |
| `Kotlindoc.EscapeIsMarkupFree` | rsocket-rpc-protobuf/src/kotlin_plugin/cpp/kotlin_generator.cpp:177-197 | No at sign, angle bracket or backslash is left in the output |
| `Kotlindoc.EscapeIsSafe` | rsocket-rpc-protobuf/src/kotlin_plugin/cpp/kotlin_generator.cpp:156-173 | The output holds neither comment start nor comment end, and does not complete one with the character the state stands for, so it does not start with a slash |
| `Kotlindoc.EscapeCommutesWithSplit` | rsocket-rpc-protobuf/src/kotlin_plugin/cpp/kotlin_generator.cpp:216-233 | Splitting the escaped text gives the non-empty lines of the raw text, each escaped on its own, only a line at offset 0 from the asterisk state |
| `Kotlindoc.GetDocLines` | rsocket-rpc-protobuf/src/kotlin_plugin/cpp/kotlin_generator.cpp:216-233 | Returns exactly those lines |
| `Kotlindoc.TrimmingDoesNothing` | rsocket-rpc-protobuf/src/kotlin_plugin/cpp/kotlin_generator.cpp:227-229 | The splitter leaves nothing for the trimming loop |
| `Kotlindoc.DocLinesUndone` | rsocket-rpc-protobuf/src/kotlin_plugin/cpp/kotlin_generator.cpp:216-233 | Decoding the doc lines gives the non-empty lines of the comment |
| `Kotlindoc.DocLinesAreSafe` | rsocket-rpc-protobuf/src/kotlin_plugin/cpp/kotlin_generator.cpp:216-233 | Every doc line is non-empty, without line break, comment marker and markup |
| `Lines.SplitOnCharacter` | rsocket-rpc-protobuf/src/kotlin_plugin/cpp/kotlin_generator.cpp:105-120 | The pointer loop gives the maximal delimiter-free runs |
| `Lines.SplitOnAny` | rsocket-rpc-protobuf/src/kotlin_plugin/cpp/kotlin_generator.cpp:122-132 | The find loop gives the same runs, for any delimiter set |
| `Lines.Split` | rsocket-rpc-protobuf/src/kotlin_plugin/cpp/kotlin_generator.cpp:135-146 | The choice of path does not show |
| `Lines.DelimiterCuts` | rsocket-rpc-protobuf/src/kotlin_plugin/cpp/kotlin_generator.cpp:101-133 | A delimiter cuts wherever it stands: the pieces around it are the pieces before and after |
| `Lines.RunIsOnePiece` | rsocket-rpc-protobuf/src/kotlin_plugin/cpp/kotlin_generator.cpp:101-133 | A text without delimiters is one piece, or none if empty |
| `Lines.PiecesAreDelimiterFree` | rsocket-rpc-protobuf/src/kotlin_plugin/cpp/kotlin_generator.cpp:101-133 | No piece is empty or holds a delimiter |
| `Lines.PiecesConcatenate` | rsocket-rpc-protobuf/src/kotlin_plugin/cpp/kotlin_generator.cpp:101-133 | The pieces concatenate to the text without its delimiters |
| `Names.MixedLower` | rsocket-rpc-protobuf/src/kotlin_plugin/cpp/kotlin_generator.cpp:57-70 | Computes the function name |
| `Names.ToAllUpperCase` | rsocket-rpc-protobuf/src/kotlin_plugin/cpp/kotlin_generator.cpp:76-85 | Computes the constant name |
| `Names.ConversionsByLetter` | rsocket-rpc-protobuf/src/kotlin_plugin/cpp/kotlin_generator.cpp:57-85 | Letter by letter what both write: the function name starts with no capital, keeps a rest without underscores as it is and holds no underscore behind; the constant is the letters as capitals behind their gaps, with no lower-case letter |
| `Names.ConstantRecoversName` | rsocket-rpc-protobuf/src/kotlin_plugin/cpp/kotlin_generator.cpp:57-85 | Lower-casing the constant and converting it gives the function name if and only if every capital starts a word |
| `Names.FunctionNamesClash` | rsocket-rpc-protobuf/src/kotlin_plugin/cpp/kotlin_generator.cpp:57-70 | For all words: two function names are equal exactly if the first characters and then the letters agree up to case, with capitals at the same places, underscores counting only as the capital behind them |
| `Names.ConstantNamesClash` | rsocket-rpc-protobuf/src/kotlin_plugin/cpp/kotlin_generator.cpp:76-93 | For all words: two constants are equal exactly if the words have the same letters up to case, the same gaps (underscores, or a capital behind a lower-case letter) and as many underscores at the end |
| `Names.MethodStyleNamesStayDistinct` | rsocket-rpc-protobuf/src/kotlin_plugin/cpp/kotlin_generator.cpp:57-93 | On names of the usual form neither conversion makes two equal |
| `Names.OtherNamesClash` | rsocket-rpc-protobuf/src/kotlin_plugin/cpp/kotlin_generator.cpp:57-85 | Outside it there are names that clash, one pair for each conversion |
| `Names.LowerCamelIdempotent` | rsocket-rpc-protobuf/src/kotlin_plugin/cpp/kotlin_generator.cpp:57-70 | A second conversion changes nothing |
| `Names.AllUpperIdempotent` | rsocket-rpc-protobuf/src/kotlin_plugin/cpp/kotlin_generator.cpp:76-85 | A second conversion changes nothing |
| `Frames.EncodeFrame` | rsocket-rpc-core/src/main/kotlin/io/rsocket/rpc/kotlin/frames/Metadata.kt:39-62 | Accepts exactly texts of at most 65535 bytes; writes version, sections and metadata; drains tracing and leaves the metadata buffer where it was |
| `Frames.Encode4` | rsocket-rpc-core/src/main/kotlin/io/rsocket/rpc/kotlin/frames/Metadata.kt:30-37 | The overload without tracing writes an empty section, and fails as the other does |
| `Frames.GetVersion` | rsocket-rpc-core/src/main/kotlin/io/rsocket/rpc/kotlin/frames/Metadata.kt:64-67 | Fails with fewer than two bytes; otherwise gives the big-endian value of the first two without the top bit |
| `Frames.GetService` | rsocket-rpc-core/src/main/kotlin/io/rsocket/rpc/kotlin/frames/Metadata.kt:69-77 | Reads the first section, and moves nothing |
| `Frames.GetMethod` | rsocket-rpc-core/src/main/kotlin/io/rsocket/rpc/kotlin/frames/Metadata.kt:79-90 | Reads the second section behind the first, and moves nothing |
| `Frames.GetTracing` | rsocket-rpc-core/src/main/kotlin/io/rsocket/rpc/kotlin/frames/Metadata.kt:92-106 | A slice of its own of the third section; empty for a length that is not positive |
| `Frames.GetMetadata` | rsocket-rpc-core/src/main/kotlin/io/rsocket/rpc/kotlin/frames/Metadata.kt:108-123 | A slice of its own of what the reader index leaves behind the sections |
| `Frames.FirstSection` | rsocket-rpc-core/src/main/kotlin/io/rsocket/rpc/kotlin/frames/Metadata.kt:46-50 | The first section lies behind version and length, its length sign-extended |
| `Frames.SecondSection` | rsocket-rpc-core/src/main/kotlin/io/rsocket/rpc/kotlin/frames/Metadata.kt:52-54 | The second section follows the first without a gap if the first length reads back |
| `Frames.ThirdSection` | rsocket-rpc-core/src/main/kotlin/io/rsocket/rpc/kotlin/frames/Metadata.kt:56-59 | The third section follows, and the rest of the frame is the metadata |
| `Frames.FieldsPartitionFrame` | rsocket-rpc-core/src/main/kotlin/io/rsocket/rpc/kotlin/frames/Metadata.kt:69-123 | On any frame: where the three lengths found are not negative and inside the frame, the sections found are what lies there, in order and without gaps |
| `Frames.VersionRoundTrip` | rsocket-rpc-core/src/main/kotlin/io/rsocket/rpc/kotlin/frames/Metadata.kt:64-67 | Every encoded frame has version 1 |
| `Frames.ServiceRoundTrip` | rsocket-rpc-core/src/main/kotlin/io/rsocket/rpc/kotlin/frames/Metadata.kt:69-77 | An encoded service comes back if and only if it has at most 32767 bytes; up to 65535 it is accepted and fails to read |
| `Frames.MethodRoundTrip` | rsocket-rpc-core/src/main/kotlin/io/rsocket/rpc/kotlin/frames/Metadata.kt:79-90 | Behind such a service the method comes back if and only if it has at most 32767 bytes |
| `Frames.MethodBehindLongService` | rsocket-rpc-core/src/main/kotlin/io/rsocket/rpc/kotlin/frames/Metadata.kt:79-90 | Behind a service of 32768 to 65535 bytes: what the getter gives, exactly, for every length and method |
| `Frames.TracingRoundTrip` | rsocket-rpc-core/src/main/kotlin/io/rsocket/rpc/kotlin/frames/Metadata.kt:92-106 | For all texts that can be encoded: behind texts of at most 32767 bytes the tracing section comes back if and only if it has at most 32767 bytes, and cut to its sign-extended length beyond; behind longer texts the answer is given exactly |
| `Frames.MetadataRoundTrip` | rsocket-rpc-core/src/main/kotlin/io/rsocket/rpc/kotlin/frames/Metadata.kt:108-123 | For all texts that can be encoded: from reader index 0 the metadata comes back if and only if service, method and tracing section have at most 32767 bytes each |
| `Frames.MetadataFromMovedReader` | rsocket-rpc-core/src/main/kotlin/io/rsocket/rpc/kotlin/frames/Metadata.kt:121-122 | A reader index of r costs the last r bytes of the metadata; a section of more than 32767 bytes shifts the start as well, and behind longer texts the exact answer is given |
| `Frames.BuffersBehindLongTexts` | rsocket-rpc-core/src/main/kotlin/io/rsocket/rpc/kotlin/frames/Metadata.kt:92-123 | Behind a service or method of 32768 to 65535 bytes: what the tracing and metadata getters give, for every pair of lengths and every reader index |
| `Utf8.DecodeEncode` | rsocket-rpc-core/src/main/kotlin/io/rsocket/rpc/kotlin/frames/Metadata.kt:48-50 | Decoding undoes encoding and is in step behind it |
| `Utf8.DecodeStepIs` | rsocket-rpc-core/src/main/kotlin/io/rsocket/rpc/kotlin/frames/Metadata.kt:76-89 | On any bytes a step takes a whole character's encoding off the front if one is there; else it replaces a maximal ill-formed subpart |
| `Utf8.Rfc3629Examples` | rsocket-rpc-core/src/main/kotlin/io/rsocket/rpc/kotlin/frames/Metadata.kt:48-50 | The examples of section 7 of RFC 3629 are encoded as given there |
| `Utf8.Utf8BytesIsLength` | rsocket-rpc-core/src/main/kotlin/io/rsocket/rpc/kotlin/frames/Metadata.kt:48-49 | The length written ahead of a text is the number of bytes written |
| `Tracing.MapToByteBuf` | rsocket-rpc-core/src/main/kotlin/io/rsocket/rpc/kotlin/tracing/Tracing.kt:54-72 | Fails exactly if a key or value has more than 65535 bytes, with the length of the first such text; otherwise writes the entries in iteration order, nothing for no map |
| `Tracing.ByteBufToMap` | rsocket-rpc-core/src/main/kotlin/io/rsocket/rpc/kotlin/tracing/Tracing.kt:125-138 | On any bytes the loop ends, at least four bytes a pass; it fails or has consumed them all, later entries overriding |
| `Tracing.DeserializeTracingMetadata` | rsocket-rpc-core/src/main/kotlin/io/rsocket/rpc/kotlin/tracing/Tracing.kt:36-52 | None without a tracer or for an empty map; the frame is not moved |
| `Tracing.NestedRoundTrip` | rsocket-rpc-core/src/main/kotlin/io/rsocket/rpc/kotlin/tracing/Tracing.kt:36-72 | For every non-empty map and iteration order and all texts that can be encoded: map to section to frame and back gives the map if and only if both texts and the section have at most 32767 bytes, or, for texts that put the getter inside earlier bytes, if those bytes parse to it |
| `Tracing.MisreadSpellsAMap` | rsocket-rpc-core/src/main/kotlin/io/rsocket/rpc/kotlin/frames/Metadata.kt:92-106 | Such texts exist: behind one service name of 65533 bytes every frame gives the server the same map, whatever map was sent |
| `Tracing.SpanContextIsFirstEntries` | rsocket-rpc-core/src/main/kotlin/io/rsocket/rpc/kotlin/tracing/Tracing.kt:36-52 | What the server hands on for every map and iteration order: the entries left whole by the cut, none without a tracer or if none is left, an error if the cut is inside an entry |
| `Tracing.EntriesLeftByLength` | rsocket-rpc-core/src/main/kotlin/io/rsocket/rpc/kotlin/frames/Metadata.kt:98-105 | Sections of at most 32767 bytes keep all entries, those of up to 65536 keep none without failing, longer ones keep fewer or fail |
| `Tracing.MapRoundTrip` | rsocket-rpc-core/src/main/kotlin/io/rsocket/rpc/kotlin/tracing/Tracing.kt:54-72 | Without the frame it comes back if every key and value has at most 32767 bytes, and fails otherwise |
| `Tracing.ParseTruncated` | rsocket-rpc-core/src/main/kotlin/io/rsocket/rpc/kotlin/tracing/Tracing.kt:125-138 | A run of entries cut at any byte reads back if and only if the cut is right behind an entry and all entries before it are readable, and then as exactly those |
| `Tracing.ParseIsInverse` | rsocket-rpc-core/src/main/kotlin/io/rsocket/rpc/kotlin/tracing/Tracing.kt:125-138 | On any bytes: they read as these entries if and only if they are what is written for them and every key and value has at most 32767 bytes |
| `Tracing.EntriesUpToMeans` | rsocket-rpc-core/src/main/kotlin/io/rsocket/rpc/kotlin/tracing/Tracing.kt:125-138 | That many entries, and no other number, take the bytes up to the cut with keys and values of at most 32767 bytes |
| `Tracing.ConcatenationOverrides` | rsocket-rpc-core/src/main/kotlin/io/rsocket/rpc/kotlin/tracing/Tracing.kt:125-138 | Two encodings together read as the first map overridden by the second |
| `Tracing.EntriesPerByte` | rsocket-rpc-core/src/main/kotlin/io/rsocket/rpc/kotlin/tracing/Tracing.kt:125-138 | n bytes hold at most n / 4 entries |
| `TraceSubscriber.TraceSubscriber.Cleanup` | rsocket-rpc-core/src/main/kotlin/io/rsocket/rpc/kotlin/tracing/TraceSubscriber.kt:148-153 | The winner of the flag finishes the span, then the root if that did not throw; others do nothing; the new state is that of the machine's actor run alone from its compare-and-set |
| `TraceSubscriber.TraceSubscriber.Complete` | rsocket-rpc-core/src/main/kotlin/io/rsocket/rpc/kotlin/tracing/TraceSubscriber.kt:122-131 | The cleanup comes whether or not the downstream call throws; the new state is that of one machine actor run alone |
| `TraceSubscriber.TraceSubscriber.Error` | rsocket-rpc-core/src/main/kotlin/io/rsocket/rpc/kotlin/tracing/TraceSubscriber.kt:112-120 | The cleanup comes; nothing reaches the downstream; the new state is that of one machine actor run alone |
| `TraceSubscriber.TraceSubscriber.Cancel` | rsocket-rpc-core/src/main/kotlin/io/rsocket/rpc/kotlin/tracing/TraceSubscriber.kt:137-146 | The cleanup comes, also without an upstream; the new state is that of one machine actor run alone |
| `TraceSubscriber.TraceSubscriber.Subscribe` | rsocket-rpc-core/src/main/kotlin/io/rsocket/rpc/kotlin/tracing/TraceSubscriber.kt:95-106 | A first subscription reaches the downstream twice, or once if the first delivery or what comes before the second throws; another one is cancelled; a throw gets out and leads to no cleanup |
| `TraceSubscriber.FinishedExactlyOnce` | rsocket-rpc-core/src/main/kotlin/io/rsocket/rpc/kotlin/tracing/TraceSubscriber.kt:112-153 | Under every interleaving of any number of error, complete and cancel calls, throwing anywhere: no span is finished twice; when all that started have ended the span is finished once, and the root once unless finishing the span threw |
| `TraceSubscriber.StepKeepsInvariant` | rsocket-rpc-core/src/main/kotlin/io/rsocket/rpc/kotlin/tracing/TraceSubscriber.kt:148-153 | Every single action keeps: at most one actor holds the win, and the finish counts match its progress |
| `TraceSubscriber.SequentialCallIsARun` | rsocket-rpc-core/src/main/kotlin/io/rsocket/rpc/kotlin/tracing/TraceSubscriber.kt:112-153 | From any state of the machine, the five actions of an idle actor, taken without a pause, change the shared state as a call of the class does and end that actor |
| `TraceSubscriber.CallsAreARun` | rsocket-rpc-core/src/main/kotlin/io/rsocket/rpc/kotlin/tracing/TraceSubscriber.kt:112-153 | Any sequence of calls of the class leaves the state that the machine reaches under the schedule with one actor a call, one after the other |
| `TraceSubscriber.CallsFinishOnce` | rsocket-rpc-core/src/main/kotlin/io/rsocket/rpc/kotlin/tracing/TraceSubscriber.kt:112-153 | After one call or any more of them the span has been finished once, and the root once exactly if there is one and finishing the span did not throw in the first call |
| `StreamSplitter.SplitterConserves` | rsocket-rpc-core/src/main/kotlin/io/rsocket/rpc/kotlin/util/StreamSplitter.kt:30-46 | At every moment of every run the emitted head, the delivered tail, the held tail and what a cancel of the tail dropped are the source so far; one head exactly if an item came; the terminal signal at most once and last |
| `StreamSplitter.HeadAndTailAreSource` | rsocket-rpc-core/src/main/kotlin/io/rsocket/rpc/kotlin/util/StreamSplitter.kt:30-46 | Putting the head back in front of the tail gives the source |
| `StreamSplitter.DrainsCompletely` | rsocket-rpc-core/src/main/kotlin/io/rsocket/rpc/kotlin/util/StreamSplitter.kt:32-36 | An attached consumer that has not cancelled gets everything in as many deliveries as signals are pending |
| `StreamSplitter.ConsumerInCharge` | rsocket-rpc-core/src/main/kotlin/io/rsocket/rpc/kotlin/util/StreamSplitter.kt:32-45 | In every run: the consumer is attached exactly if it attached, cancelled exactly if it cancelled behind that, has nothing before it attached and never more than the deliveries tried |
| `StreamSplitter.ConsumerGetsEverything` | rsocket-rpc-core/src/main/kotlin/io/rsocket/rpc/kotlin/util/StreamSplitter.kt:32-45 | After any run in which the consumer attached and did not cancel, and as many deliveries as signals are pending, it has been given everything behind the head, in order and with the end |
| `StreamSplitter.NothingAfterCancel` | rsocket-rpc-core/src/main/kotlin/io/rsocket/rpc/kotlin/util/StreamSplitter.kt:32-45 | After a cancel of the tail nothing is held and no event delivers anything more |
| `StreamSplitter.SourceKeepsInvariant` | rsocket-rpc-core/src/main/kotlin/io/rsocket/rpc/kotlin/util/StreamSplitter.kt:35-45 | Each source signal keeps the conservation |
| `StreamSplitter.Splitter.OnNext` | rsocket-rpc-core/src/main/kotlin/io/rsocket/rpc/kotlin/util/StreamSplitter.kt:37-45 | The first item leaves as a split with the processor, every other goes to the processor and is filtered by identity |
| `StreamSplitter.Splitter.OnEnd` | rsocket-rpc-core/src/main/kotlin/io/rsocket/rpc/kotlin/util/StreamSplitter.kt:35-36 | The terminal signal goes to the processor |
| `Plugin.KotlinPackageToDir` | rsocket-rpc-protobuf/src/kotlin_plugin/cpp/kotlin_plugin.cpp:26-35 | Every dot becomes a slash, in place; a trailing slash unless empty |
| `Plugin.OpenFiles` | rsocket-rpc-protobuf/src/kotlin_plugin/cpp/kotlin_plugin.cpp:68-84 | Three files a service, in order, under the package directory |
| `Plugin.FileLiesInItsPackage` | rsocket-rpc-protobuf/src/kotlin_plugin/cpp/kotlin_plugin.cpp:26-84 | Split at slashes, a file's path is the parts of its package and then the class name with the extension |
| `Plugin.FilesDistinctIff` | rsocket-rpc-protobuf/src/kotlin_plugin/cpp/kotlin_plugin.cpp:68-84 | The files of distinct services are pairwise distinct if and only if no service is named like another followed by "Client" or "Server" |
| `Plugin.PackageIsBeforeLastDot` | rsocket-rpc-protobuf/src/kotlin_plugin/cpp/kotlin_generator.cpp:1460-1469 | A class name with a dot has the package before its last dot |
| `Plugin.NoDotNoPackage` | rsocket-rpc-protobuf/src/kotlin_plugin/cpp/kotlin_generator.cpp:1465-1467 | A class name without a dot has the empty package |

## Left out

- Generator.PrintClient: states that brackets match and which stubs there are, not the printed text, so a group of matching brackets missing from a template would not show; names, types, annotations, version strings and string literals are dropped from the templates. The same goes for the server. Of the interface, comments and brackets are stated exactly.
- Generator.PrintServer: `Indent` and `Outdent` are followed only in the interface; in client and server they are not balanced for every mix of methods and only change white space.
- EndToEnd.StubFrame: release of the temporary buffers is not modelled.
- Utf8.DecodeEncode: unpaired surrogates, which a JVM string may hold, are not characters here, and what is ill-formed is replaced by maximal subparts, which is not how every JVM decoder groups it.
- Frames.EncodeFrame: pooled allocation and capacity growth, and therefore reads between the writer index and the capacity of a buffer just written.
- StreamSplitter.SplitterConserves: back-pressure and resubscription; one subscription, and deliveries and cancel as single steps at any time.
- RequestHandling.RequestHandlingRSocket.AddService: registrations come one at a time, as the concurrent map's atomic puts do; concurrent lookups are not interleaved with them.
- TraceSubscriber.FinishedExactlyOnce: counts finishes only; scopes, log text, clocks, tags and the tracer's injection into the map are not modelled, and neither is `request`.
- What the tracer does with the extracted map: the map itself stands for the span context.
- Protobuf serialization: a pair of functions of which the second undoes the first.
- Parsing of the plugin's options, which only choose a version string and an unused flavour.
- The protobuf descriptors and the option extension: only names, streaming flags, the fire-and-forget flag and comments are used.
- Transport, connection handling, the example, the tests and the build.
