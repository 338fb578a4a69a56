# OpenTM, verified models

OpenTM manages PlayStation 3 development consoles over DECI3, a private wire protocol. This
project models the parts of it that carry state, parse bytes or pair requests with replies,
and proves what they promise for every input, every run and every order of events.

Verify with `dafny verify dfyconfig.toml` in this directory. Proofs are kept short enough for a
limit of 2000000 resource units.

## How the model is laid out

| Part | Modules |
|---|---|
| byte readers and writers | `BeIo`, `Wrappers` |
| wire codecs | `Deci3Codec`, `DfmpCodec`, `TsmpCodec`, `DbgpCodec`, `DrfpCodec`, `WireLayouts` |
| stream reassembly | `TcpConnection`, `TcpGreeting` |
| SFT settings | `SftText`, `SftLineLaws`, `SftEdits`, `SftSettings` |
| host file server | `HostPaths`, `HostPathWalk`, `HostFileServer`, `HostFileServerLaws`, `HostFileServerBounds`, `HostFileServerHandles`, `HostFileServerObject` |
| session and shared counter | `SessionController`, `SessionRuns`, `FileExplorer`, `FileExplorerRuns`, `SharedCounter` |
| kernel explorer | `KernelExplorer`, `KernelExplorerLaws`, `KernelExplorerCompletion`, `KernelExplorerLayouts`, `ProcessListJoin` |
| JSON-RPC link | `RpcLines`, `RpcLineLaws`, `RpcMessages`, `RpcClient`, `RpcServer`, `RpcSystem`, `RpcPairing`, `RpcEvents` |
| load request | `LoadExt`, `LoadExtWire` |

Each component that updates fields is a class whose methods follow the program's own loops and
branches. A method's postcondition equates the new state, or the bytes written, with a
function of the old one (`Step`, `Act`, `Receive`, `Encode`). The laws are lemmas about that
function: over all streams and cuttings, over all runs, over all orders of replies. What must be
so outside the program is stated in its own terms, bytes at offsets, lines as typed, replies by
their words, and not through the functions of the model (`TcpGreeting`, `SftLineLaws`,
`HostFileServerHandles`, `KernelExplorerLayouts`, `WireLayouts`, the `Runs` and `Events` modules).

A send succeeds or fails as a whole, and no handler calls back into the object that called it.
Signals and callbacks are entries of a log. The host file system, the clock, the JSON library
and the RPC method bodies are parameters, so every law holds for whatever they answer.

## Where the code does less than one might expect

Each is a lemma, with the exact condition where one exists.

- A greeting that the control socket decides before the last socket of the chain is up makes
  the link ready at once; the end of the chain then takes that back and nothing restores it
  (`TcpConnection.ReadyIffGreetedAfterTheChain`; `TcpConnection.EarlyGreetingIsLost` is the
  smallest such run).
- Path resolution keeps ".." out exactly when the serving root has a segment other than "..", or
  is "." (`HostPaths.StaysInsideIff`). With the root "/" a console path can resolve to a path
  with ".." in it.
- Authorising makes no difference to what is asked below /app_home/ exactly when no drive letter
  follows the leading slashes, because those are stripped on the way in
  (`HostPaths.PosixPathsAreNotAuthorised`). A POSIX path resolves below the serving root
  instead, so to itself exactly when that root is "/" (`HostPaths.PosixPathsResolveBelowTheRoot`).
- A reply to the last known DRFP code does not parse as DRFP again; all others do
  (`DrfpCodec.ParseOfBuildIff`, `HostFileServerLaws.EveryRequestHasOneReply`).
- Settings with a key repeated under another value differ from themselves
  (`SftEdits.RepeatedKeyDiffersFromItself`).
- A synchronisation list is announced exactly once by every run that completes it if and only
  if it names no handle twice (`KernelExplorerCompletion.AnnouncedOnceInEveryOrderIff`): with a
  repeated handle some order of the answers announces more than once. An empty list is never
  announced (`KernelExplorerCompletion.EmptyListReply`).
- A handshake restarts the request counter but nothing empties the tables. No number is held
  twice in any run of the new epoch if and only if every number still held lies below the
  restart (`SharedCounter.NextEpochIsSafeIff`). A frame that then answers two requests is built
  in `SharedCounter.StaleNumberCrosses`.
- On a DEX console the kernel explorer asks under the session word 0x00100000 but accepts
  replies only under 0x02100000. When the console answers under the word it was asked with,
  no run announces anything if and only if the console is a DEX one
  (`KernelExplorerLaws.SilentIffDex`).
- `file_explorer_controller::on_session_invalidated` is not connected to any signal
  (src/tm_session/target_session.cpp:37-140), so nothing the session goes through empties a
  table (`SharedCounter.SessionEmptiesNoTable`).
- Forgetting a transfer path withdraws the path and leaves its ancestors authorised. It undoes
  authorising if and only if the path was not authorised before and its ancestors were
  (`HostFileServerBounds.ForgetUndoesAuthoriseIff`).

## Model

| member | source | states |
|---|---|---|
| BeIo.ValueOfBigEndian | src/tm_core/be_io.h:15-30 | printing a word that fits and taking the positional value gives the word back |
| BeIo.BigEndianOfValue | src/tm_core/be_io.h:32-44 | the positional value of any bytes prints back to those bytes |
| BeIo.ReadersAreValue | src/tm_core/be_io.h:32-44 | the 16, 32 and 64-bit readers agree with the positional value of the bytes they read |
| BeIo.U32OrZero | src/tm_core/be_io.h:47-49 | the bounds-checked reader gives the value of the four bytes, or zero when they run off the end |
| BeIo.U64OrZero | src/tm_core/be_io.h:51-53 | the same for eight bytes |
| BeIo.ReadBeU64 | src/tm_core/be_io.h:40-44 | the eight-step accumulation loop computes the 64-bit reader |
| BeIo.ReadCStr | src/tm_core/be_io.h:56-66 | the copying loop returns the bytes from the offset up to the first NUL, the maximum or the end, and nothing past the end |
| BeIo.CStringOf | src/tm_core/be_io.h:55-66 | a NUL-free string followed by a NUL reads back, whatever follows |
| BeIo.ByteVector.WriteU16 | src/tm_core/be_io.h:15-18 | writes exactly the two big-endian bytes at the offset and nothing else |
| BeIo.ByteVector.WriteU32 | src/tm_core/be_io.h:20-25 | writes exactly the four big-endian bytes at the offset and nothing else |
| BeIo.ByteVector.AppendU32 | src/tm_core/be_io.h:68-73 | appends the four big-endian bytes |
| BeIo.ByteVector.AppendU64 | src/tm_core/be_io.h:75-79 | the shifting loop appends the eight big-endian bytes |
| BeIo.ByteOfWord | src/tm_core/be_io.h:75-79 | each byte of a big-endian word is the word shifted and masked |
| Deci3Codec.EncodeFrame | src/tm_core/deci3_codec.cpp:40-56 | appends the frame at the end of the caller's vector and returns its wire size, the length field wrapping at 16 bits |
| Deci3Codec.DecodeFrame | src/tm_core/deci3_codec.cpp:58-84 | a decoded frame consumes its own wire size, at least the 16-byte header and no more than the buffer |
| Deci3Codec.DecodeAllFrames | src/tm_core/deci3_codec.cpp:86-107 | the offset loop returns the frames, error and error offset of the batch meaning |
| Deci3Codec.RoundTripIffFits | src/tm_core/deci3_codec.cpp:40-84 | a printed frame reads back, with whatever follows left alone, if and only if its payload has at most 65519 bytes |
| Deci3Codec.ReprintsConsumed | src/tm_core/deci3_codec.cpp:40-84 | printing a decoded frame gives exactly the bytes that were consumed |
| Deci3Codec.DecodeAllOfEncodeAll | src/tm_core/deci3_codec.cpp:40-107 | any list of fitting frames, printed back to back, decodes to that list without error, offset equal to the size |
| Deci3Codec.EncodeAllOfDecodeAll | src/tm_core/deci3_codec.cpp:40-107 | printing what the batch reader returned gives the bytes it accepted; without an error that is the whole input |
| Deci3Codec.DecisionIsStable | src/tm_core/deci3_codec.cpp:58-84 | a frame or a bad magic found in a buffer is found in every extension of it |
| Deci3Codec.ShortLengthNeverCompletes | src/tm_core/deci3_codec.cpp:69-73 | a length field below the header size stays an error however many bytes follow |
| WireLayouts.Deci3Layout | src/tm_core/deci3_codec.cpp:40-56 | the bytes of a frame: 30 10, then session, length, direction, session, category and payload, each at its offset |
| TcpConnection.Connection.constructor | src/tm_core/tcp_connection.cpp:45-48 | a new connection has no bytes, no sockets, no greeting and is down |
| TcpConnection.Connection.SetState | src/tm_core/tcp_connection.cpp:123-127 | a state change is logged once, and not at all when nothing changes |
| TcpConnection.Connection.ResetBuffers | src/tm_core/tcp_connection.cpp:45-48 | empties all three buffers and forgets the greeting |
| TcpConnection.Connection.ConnectToTarget | src/tm_core/tcp_connection.cpp:50-59 | dials only from the down or error state, with empty buffers |
| TcpConnection.Connection.OnConnected | src/tm_core/tcp_connection.cpp:129-146 | the socket chain: which socket is opened next, and that the last one starts waiting for the greeting |
| TcpConnection.Connection.OnAnyDisconnected | src/tm_core/tcp_connection.cpp:148-154 | one socket down takes all down and empties the buffers before the state changes |
| TcpConnection.Connection.FailFraming | src/tm_core/tcp_connection.cpp:185-189 | a framing error ends in the error state with nothing left |
| TcpConnection.Connection.ReadInto | src/tm_core/tcp_connection.cpp:161-166 | appends the bytes to the socket's own buffer and parses |
| TcpConnection.Connection.TryParseFrames | src/tm_core/tcp_connection.cpp:168-222 | greeting decision and frame loop together act as the meaning of the buffer |
| TcpConnection.Connection.DrainFrames | src/tm_core/tcp_connection.cpp:199-221 | the loop pops every complete frame in order, stops at the first incomplete one and fails on a bad magic |
| TcpConnection.DecodeAllExtends | src/tm_core/tcp_connection.cpp:199-221 | reading a prefix and later its leftover with more bytes is reading everything at once |
| TcpConnection.OutcomeExtends | src/tm_core/tcp_connection.cpp:168-222 | the meaning of a longer stream is the meaning of the shorter one followed by that of its leftover with the new bytes |
| TcpConnection.TwoChunksAreOne | src/tm_core/tcp_connection.cpp:161-222 | two deliveries are one delivery of the joined bytes: same state, same log |
| TcpConnection.ChunkingIsIrrelevant | src/tm_core/tcp_connection.cpp:161-222 | for every stream and every cutting: same frames, leftover, greeting decision, failure and signal order as one feed |
| TcpConnection.InterleavingIsIrrelevant | src/tm_core/tcp_connection.cpp:161-222 | from any link without bytes, whatever it logged before: for every interleaving on the sockets that are up, each shows since then what its own stream means, and the link fails if and only if some stream means a failure |
| TcpConnection.RunIsOlder | src/tm_core/tcp_connection.cpp:161-222 | an older log changes nothing but itself |
| TcpConnection.RunShows | src/tm_core/tcp_connection.cpp:161-222 | the same from any state that already shows the meaning of what it has read |
| TcpConnection.ReadyIffGreetedAfterTheChain | src/tm_core/tcp_connection.cpp:50-197 | from any link that is down or failed, dialled and read on all three sockets as they come up: each socket shows its stream, and the link ends up ready exactly when the greeting is decided after the chain; decided earlier it is ready only until then |
| TcpConnection.EarlyGreetingIsLost | src/tm_core/tcp_connection.cpp:129-197 | the six-byte greeting received before the chain is complete, and nothing more: the link waits for a greeting it has consumed |
| TcpGreeting.FramesStartWithMagic | src/tm_core/deci3_codec.cpp:40-56 | every printed frame begins with 30 10, the bytes the greeting test looks for |
| TcpGreeting.StreamArrives | src/tm_core/tcp_connection.cpp:161-222 | any fitting frames, behind no greeting or six zero bytes on the control socket, before a part of one more frame or junk: whatever the cutting, exactly the greeting, the change to ready and the frames are reported, and what is left over or the failure follows |
| TcpGreeting.GreetingDecision | src/tm_core/tcp_connection.cpp:168-197 | the control stream is refused if and only if at least six bytes are there that do not begin with 30 10 and are not all zero among the first six; it is greeted with nothing exactly by 30 10 and with six bytes exactly by six zeros |
| SftSettings.Settings.ParseData | src/tm_core/sft_settings.cpp:19-52 | the line loop builds the parsed sections of the bytes |
| SftSettings.Settings.SerialiseData | src/tm_core/sft_settings.cpp:54-65 | the nested loops print the settings |
| SftSettings.Settings.FindEntry | src/tm_core/sft_settings.cpp:67-73 | finds the first entry of that key in the sections of that name, or nothing |
| SftSettings.Settings.Value | src/tm_core/sft_settings.cpp:75-78 | the found value, or the empty text |
| SftSettings.Settings.Contains | src/tm_core/sft_settings.cpp:80-82 | whether the lookup finds anything |
| SftSettings.Settings.Set | src/tm_core/sft_settings.cpp:84-95 | updates the first section of that name, or appends one |
| SftSettings.Settings.SetEntry | src/tm_core/sft_settings.cpp:88-91 | overwrites the first entry of that key, or appends one |
| SftSettings.Settings.DiffAgainst | src/tm_core/sft_settings.cpp:97-109 | the nested loops compute the difference |
| SftSettings.Settings.OverridesAgainst | src/tm_core/sft_settings.cpp:111-132 | the loops over changed sections and coupled keys compute the overrides |
| SftText.RoundTripIffWellFormed | src/tm_core/sft_settings.cpp:19-65 | settings survive printing and parsing if and only if they are well-formed |
| SftText.ParseIsWellFormed | src/tm_core/sft_settings.cpp:19-52 | whatever the bytes, the parser yields well-formed settings |
| SftText.ParseSerialiseParse | src/tm_core/sft_settings.cpp:19-65 | for every byte string, parsing, printing and parsing again equals parsing once |
| SftText.PrintedReadsBack | src/tm_core/sft_settings.cpp:19-65 | well-formed settings parse back from their printed form, order and duplicates included |
| SftText.Latin1Inverse | src/tm_core/sft_settings.cpp:64 | Latin-1 text survives the conversion to bytes and back |
| SftLineLaws.TextSays | src/tm_core/sft_settings.cpp:19-52 | a text of lines, each with any blanks around it and around its key, reads as exactly the headers and entries it spells; comments, blank and stray lines count for nothing, and entries before any header go under an unnamed section |
| SftLineLaws.EveryTextIsSpelt | src/tm_core/sft_settings.cpp:19-52 | every byte string is such a text |
| SftLineLaws.SpellingIsIrrelevant | src/tm_core/sft_settings.cpp:19-52 | two texts that spell the same headers and entries read alike, whatever carriage returns, blanks, comments, stray lines or last terminator they have |
| SftLineLaws.BareLineFeeds | src/tm_core/sft_settings.cpp:19-52 | well-formed settings written with bare line feeds, with or without a last one, read back |
| SftLineLaws.PrintedLayout | src/tm_core/sft_settings.cpp:54-65 | the printed bytes: an empty line first, and what each further section and each further entry adds, and where |
| SftLineLaws.Latin1Bytes | src/tm_core/sft_settings.cpp:19-65 | one byte per character both ways; what Latin-1 has not got is a question mark |
| SftEdits.SetIsAMapUpdate | src/tm_core/sft_settings.cpp:84-95 | the set key reads back and every other lookup is unchanged, even with repeated names and keys |
| SftEdits.FindAfterItems | src/tm_core/sft_settings.cpp:97-107 | after setting a list of items the last one for a key wins |
| SftEdits.SetKeepsUnique | src/tm_core/sft_settings.cpp:84-95 | setting a key introduces no repetition |
| SftEdits.FindIsFirst | src/tm_core/sft_settings.cpp:67-73 | the lookup is the first matching item in order |
| SftEdits.DiffLookup | src/tm_core/sft_settings.cpp:97-109 | from settings without repetitions the difference holds exactly the keys whose baseline value is absent or different |
| SftEdits.DiffIsUnique | src/tm_core/sft_settings.cpp:97-109 | whatever the settings, the difference repeats no section and no key |
| SftEdits.DiffIsEmptyIff | src/tm_core/sft_settings.cpp:97-109 | the difference is empty if and only if every entry holds what the baseline's lookup gives |
| SftEdits.DiffWithItself | src/tm_core/sft_settings.cpp:97-109 | settings without repetitions do not differ from themselves |
| SftEdits.RepeatedKeyDiffersFromItself | src/tm_core/sft_settings.cpp:97-109 | a key repeated with another value does |
| SftEdits.OverridesLookup | src/tm_core/sft_settings.cpp:111-132 | exact contents: the version, every changed key, and every coupled key of a changed section that either side holds |
| SftEdits.CoupledKeysTravelTogether | src/tm_core/sft_schema.cpp:135-147 | every coupled key of a changed section that exists on either side is sent, the changed value first |
| SftEdits.NetworkTravelsWhole | src/tm_core/sft_schema.cpp:135-147 | a change in a network section brings along each of its coupled keys, named one by one, that either side holds |
| SftEdits.OverridesShape | src/tm_core/sft_settings.cpp:111-132 | the overrides are empty exactly when nothing changed, otherwise they open with the version, and repeat nothing |
| SftEdits.PatchIff | src/tm_core/sft_settings.cpp:111-132 | outside the version section, patching the baseline gives a key its effective value if and only if the last entry of that key that differs from the baseline, if any, has the value the settings look up |
| SftEdits.OverridesPatchTheBaseline | src/tm_core/sft_settings.cpp:111-132 | without repetitions the overrides turn the baseline into these settings, for every key outside the version section |
| HostPaths.CleanIsIdempotent | src/tm_session/host_file_server.cpp:223-231 | the segment-stack model of path cleaning: cleaning twice is cleaning once |
| HostPaths.NormaliseIsIdempotent | src/tm_session/host_file_server.cpp:223-231 | normalising twice is normalising once, bare drive letters included |
| HostPaths.TransferPathChain | src/tm_session/host_file_server.cpp:238-253 | the loop over the last slash terminates and collects the chain |
| HostPaths.ChainIsPathAndAncestors | src/tm_session/host_file_server.cpp:238-253 | the chain holds exactly the normalised path and its ancestors, the drive root included and the POSIX root excluded |
| HostPaths.ChainHasNoDuplicates | src/tm_session/host_file_server.cpp:238-253 | no path occurs twice in a chain |
| HostPaths.ResolvesBelow | src/tm_session/host_file_server.cpp:276-298 | a path that resolves below the root, absolute or relative, carries the root's own segments in front |
| HostPaths.StaysInsideIff | src/tm_session/host_file_server.cpp:276-298 | every console path resolves to nothing, an authorised path, the root or a ".."-free path below it, if and only if the root, absolute or relative, has a segment other than ".." or is "." |
| HostPaths.AuthorisedResolvesToItself | src/tm_session/host_file_server.cpp:255-288 | after authorising a drive path every path of its chain resolves to itself, with either slash |
| HostPaths.OneAuthorisedIsEnough | src/tm_session/host_file_server.cpp:276-288 | a drive path of a chain resolves to itself as soon as that one path is authorised |
| HostPaths.PosixPathsAreNotAuthorised | src/tm_session/host_file_server.cpp:28-36 | authorised paths make no difference to what is asked below /app_home/, for every set of them and every root, if and only if no drive letter follows its leading slashes |
| HostPaths.PosixPathsResolveBelowTheRoot | src/tm_session/host_file_server.cpp:276-298 | such a POSIX path resolves to its segments below the root, so to itself if and only if the root is "/" |
| HostPathWalk.CleaningIgnores | src/tm_session/host_file_server.cpp:223-231 | a slash at the end, a dot, a doubled slash and a step down and up change nothing |
| HostPathWalk.EitherSlash | src/tm_session/host_file_server.cpp:223-231 | paths that differ only in which way the slashes lean normalise alike, and a bare drive is its root |
| HostPathWalk.ResolvesByWalking | src/tm_session/host_file_server.cpp:276-298 | a console path without a drive letter resolves to where walking it from the serving root leads, if that keeps the root's segments, and to nothing otherwise |
| HostPathWalk.RootIsServed | src/tm_session/host_file_server.cpp:293-295 | /app_home is the serving root, whatever the root |
| HostFileServerBounds.LocalIsWithin | src/tm_session/host_file_server.cpp:276-298 | whatever a request asks for, the path that goes to the host is authorised or inside the serving root at that moment |
| HostFileServerBounds.HandlesStayInside | src/tm_session/host_file_server.cpp:348-516 | over every run that serves only directories not made of ".." alone, every open file and directory has the event that opened it: the counter handed the descriptor out there, its path was authorised or inside the root at that event, and it has been held since |
| HostFileServerBounds.RequestsStayInside | src/tm_session/host_file_server.cpp:315-661 | after every such run the paths a request works on are within bounds at that moment, also for requests that keep no handle; one of those without such a path is answered alike whatever the host holds |
| HostFileServerBounds.ForgetUndoesAuthoriseIff | src/tm_session/host_file_server.cpp:255-263 | forgetting after authorising restores the server if and only if the path was not authorised before and the rest of its chain was |
| HostFileServerBounds.AncestorsOutliveForget | src/tm_session/host_file_server.cpp:255-288 | a drive ancestor still resolves to itself after its path has been forgotten |
| HostFileServer.ModeOf | src/tm_session/host_file_server.cpp:390-395 | a file is opened to read or to write; only a writer truncates or appends |
| DrfpCodec.ParseOfBuildIff | src/tm_core/drfp_codec.cpp:45-63 | a built message parses back to its parts exactly when its code is at most 33 |
| DrfpCodec.BuildOfParse | src/tm_core/drfp_codec.cpp:45-63 | what parses was built from the parts it parsed to |
| DrfpCodec.DirentNameReadsBack | src/tm_core/drfp_codec.cpp:97-108 | the reader of a directory entry gets the name back, cut to 255 bytes and terminated |
| WireLayouts.DrfpLayout | src/tm_core/drfp_codec.cpp:56-63 | code, number and body, each at its offset |
| WireLayouts.DirentLayout | src/tm_core/drfp_codec.cpp:97-108 | a directory entry byte by byte: kind, length, name and zeros, 258 in all |
| WireLayouts.StatLayout | src/tm_core/drfp_codec.cpp:138-151 | each field of a stat body at its offset, the size in the low word |
| DrfpCodec.BuildDrfp | src/tm_core/drfp_codec.cpp:56-63 | appends code, sequence number and body |
| DrfpCodec.BuildReadReply | src/tm_core/drfp_codec.cpp:129-136 | result, size and data |
| DrfpCodec.BuildDreadReply | src/tm_core/drfp_codec.cpp:110-121 | an entry behind its size, or a bare zero size on an error |
| DrfpCodec.BuildStatReply | src/tm_core/drfp_codec.cpp:138-151 | the 48-byte stat body in wire order |
| HostFileServerObject.Server.SetFileServerDir | src/tm_session/host_file_server.cpp:142-150 | the root is stored cleaned |
| HostFileServerObject.Server.Reset | src/tm_session/host_file_server.cpp:160-170 | empties the three tables and keeps the counter |
| HostFileServerObject.Server.AuthoriseTransferPath | src/tm_session/host_file_server.cpp:255-259 | authorises the path and its ancestors |
| HostFileServerObject.Server.ForgetTransferPath | src/tm_session/host_file_server.cpp:261-263 | withdraws the path and only that |
| HostFileServerObject.Server.HandleOpen | src/tm_session/host_file_server.cpp:348-407 | one new descriptor in the right table, a file with the mode its flags ask for, or an error and no change |
| HostFileServerObject.Server.HandleClose | src/tm_session/host_file_server.cpp:663-685 | removes the descriptor from whichever table holds it |
| HostFileServerObject.Server.HandleRead | src/tm_session/host_file_server.cpp:687-712 | at most the requested and capped bytes from the file's position, which advances by as many |
| HostFileServerObject.Server.HandleSeek | src/tm_session/host_file_server.cpp:736-780 | the position moves as the base and offset say, or stays with an error |
| HostFileServerObject.Server.HandleDopen | src/tm_session/host_file_server.cpp:495-516 | a new directory cursor at the start of the listing |
| HostFileServerObject.Server.HandleDclose | src/tm_session/host_file_server.cpp:518-533 | removes the directory cursor |
| HostFileServerObject.Server.HandleDread | src/tm_session/host_file_server.cpp:535-559 | the entry at the cursor, which then advances, or the end of the directory |
| HostFileServerObject.Server.OnFrameReceived | src/tm_session/host_file_server.cpp:172-221 | a frame does to the tables and the outbox exactly what the state machine says |
| HostFileServerLaws.DescriptorsStaySound | src/tm_session/host_file_server.cpp:348-407 | over every run without counter wrap the three tables share no descriptor and all lie between 0x1000 and the counter |
| HostFileServerLaws.DeadStaysDead | src/tm_session/host_file_server.cpp:160-170 | a descriptor below the counter that is not live never becomes live |
| HostFileServerLaws.ClosedNeverReopens | src/tm_session/host_file_server.cpp:663-685 | once closed or reset, no later request revives a descriptor |
| HostFileServerLaws.HandleAnswers | src/tm_session/host_file_server.cpp:172-208 | from every state and whatever the host says, each request has one answer with code plus one and the same number, small enough for a frame |
| HostFileServerLaws.EveryRequestHasOneReply | src/tm_session/host_file_server.cpp:172-221 | a frame is answered exactly when it is a parseable request; the reply parses again exactly when its code is a known one |
| HostFileServerLaws.ReadsReturnTheContent | src/tm_session/host_file_server.cpp:687-703 | over any run that leaves a synthetic file open and unsought, its reads concatenate to exactly the content from the start position, positions staying within the file |
| HostFileServerLaws.SeekThenReads | src/tm_session/host_file_server.cpp:687-763 | what is read after a seek is what its reply promised: the content from the reported position if it was done, which is when the target lies within the file, and from the old position if it was refused |
| HostFileServerLaws.ListingsGiveEachEntryOnce | src/tm_session/host_file_server.cpp:535-559 | over any run that leaves a directory open its listings give each remaining entry once in order, then the end for ever |
| HostFileServerHandles.CloseTakesExactly | src/tm_session/host_file_server.cpp:518-685 | CLOSE of a file and DCLOSE of a directory say OK and take out exactly that descriptor; of anything else they say EBADF and change nothing |
| HostFileServerHandles.ResetLeavesNothing | src/tm_session/host_file_server.cpp:160-170 | after a reset nothing is live |
| HostFileServerHandles.LiveStep | src/tm_session/host_file_server.cpp:348-685 | after one event a descriptor is live if and only if the reply handed it out, or it was live and was neither closed with OK nor reset |
| HostFileServerHandles.LiveIffOpenSince | src/tm_session/host_file_server.cpp:348-685 | over every run a descriptor is live if and only if some reply handed it out and none since, nor a reset, took it away |
| HostFileServerHandles.RefusedIffNotOpen | src/tm_session/host_file_server.cpp:409-780 | each of the eight requests that name a descriptor says EBADF, and changes nothing, if and only if the descriptor is not open for it; too short a payload is EINVAL |
| HostFileServerHandles.FileStaysAsOpened | src/tm_session/host_file_server.cpp:348-685 | until it is closed or reset an open file keeps its path and its mode, whatever happens |
| HostFileServerHandles.WritableIffOpenedToWrite | src/tm_session/host_file_server.cpp:348-440 | at any later time before it is closed, a file takes a WRITE if and only if its OPEN asked to write |
| HostFileServerHandles.RealRead | src/tm_session/host_file_server.cpp:687-712 | a READ of a real file returns what the host reads there, as much as asked and at most 0x4000 bytes, and says how many |
| HostFileServerHandles.RealSeek | src/tm_session/host_file_server.cpp:736-780 | a seek of a real file reports where its base and offset lead, or EINVAL |
| HostFileServerHandles.WriteTells | src/tm_session/host_file_server.cpp:409-440 | a WRITE that is taken says how much the host wrote, or EIO |
| HostFileServerHandles.GrantedIff | src/tm_session/host_file_server.cpp:348-661 | a request for a path is granted if and only if its paths resolve, nothing would be overwritten or lost, and the host does it; a refusal changes nothing |
| HostFileServerHandles.RefusalSaysWhy | src/tm_session/host_file_server.cpp:348-661 | each kind of refusal is answered with its own error code |
| HostFileServerHandles.RefusalTails | src/tm_core/drfp_codec.cpp:73-136 | behind the result of a refused request stand no descriptor, no bytes written and no data |
| HostFileServerHandles.OpenedFile | src/tm_session/host_file_server.cpp:348-407 | what a granted OPEN opens: the made-up file from its start, or the file its path resolves to, for exactly what the flag bits say |
| HostFileServerHandles.OpenedDirectory | src/tm_session/host_file_server.cpp:495-516 | a granted DOPEN opens the host's listing of that directory from its start |
| HostFileServerHandles.EntryKind | src/tm_session/host_file_server.cpp:535-559 | a listed entry is marked as a directory or as something else as the host says |
| HostFileServerHandles.FtruncateTells | src/tm_session/host_file_server.cpp:561-585 | FTRUNCATE of an open file says OK or EIO as the host did it or not |
| HostFileServerHandles.RepliesAreNoRequests | src/tm_session/host_file_server.cpp:172-208 | a code that is no request is answered with ENOENT and changes nothing |
| HostFileServerHandles.StatTells | src/tm_session/host_file_server.cpp:315-346 | the fields of a STAT reply, for real files, for the made-up one and for what is not there |
| HostFileServerHandles.FstatTells | src/tm_session/host_file_server.cpp:714-734 | the same for an open descriptor |
| HostFileServerHandles.SfoByName | src/tm_session/host_file_server.cpp:300-306 | a path is the made-up file if and only if its last component is PARAM.SFO, whatever the case |
| HostFileServerHandles.InitTells | src/tm_session/host_file_server.cpp:308-313 | the first request is answered with OK and version 15 |
| SessionController.Session.NextDbgshlSeq | src/tm_session/session_controller.h:42 | returns the counter and advances it, wrapping at 32 bits |
| SessionController.Session.MarkDbgshlStreamOpen | src/tm_session/session_controller.h:44 | opens the stream and changes nothing else |
| SessionController.Session.OnConnectionLost | src/tm_session/session_controller.cpp:276-288 | forgets both tokens, readiness and the stream |
| SessionController.Session.OnSessionToken | src/tm_session/session_controller.cpp:326-328 | only the first token counts |
| SessionController.Session.OnSubToken | src/tm_session/session_controller.cpp:379-381 | only the first sub-token counts |
| SessionController.Session.OnHandshakeAcked | src/tm_session/session_controller.cpp:397-408 | ready once, with a restarted counter and a closed stream |
| SessionController.Session.OnSessionReaped | src/tm_session/session_controller.cpp:410-423 | only the current token is reaped; the reset is signalled |
| SessionController.Session.OnServerRejection | src/tm_session/session_controller.cpp:425-459 | closes the stream; readiness ends only when the console itself is down |
| SessionController.Session.OnTargetCameUp | src/tm_session/session_controller.cpp:461-466 | closes the stream of a live session |
| SessionController.Session.OnDebugAgentUp | src/tm_session/session_controller.cpp:478-482 | closes the stream |
| SessionController.Session.OnDexTsmpReply | src/tm_session/session_controller.cpp:238-257 | the next request of the bring-up chain, or readiness at its end |
| SessionController.DexChainEndsReady | src/tm_session/session_controller.cpp:238-257 | a DEX console that answers every request of the chain makes the session ready after five of them and not before |
| SessionRuns.ReadyIffOpenSince | src/tm_session/session_controller.cpp:238-461 | over every run the session is ready if and only if a handshake under a sub-token or the last DEX reply made it so, and since then the link was not lost, the token not reaped and the console not reported down (rejections 1 to 5) |
| SessionRuns.HeldIffGrantedSince | src/tm_session/session_controller.cpp:326-423 | a token or sub-token is held if and only if it came when none was held and has not been forgotten since |
| SessionRuns.CounterRestarts | src/tm_session/session_controller.cpp:397-408 | only the handshake that makes the session ready moves the counter, to between 0x1000 and 0x4FFF |
| SharedCounter.StreamNeedsSession | src/tm_session/session_controller.cpp:276-466 | over every run of session, listing and frame events an open stream means a ready session |
| SharedCounter.ReadySignalsAreSeparated | src/tm_session/session_controller.cpp:397-459 | over every run some reset lies between any two ready signals |
| FileExplorer.Explorer.OpenStream | src/tm_session/file_explorer_controller.cpp:60-144 | two or three numbers are taken and the stream is open afterwards, also when sends fail |
| FileExplorer.Explorer.OnListDirectory | src/tm_session/file_explorer_controller.cpp:22-164 | nothing happens unless link and session are ready; otherwise the numbers of the listing are the last ones taken |
| FileExplorer.Explorer.SendDfmp | src/tm_session/file_explorer_controller.cpp:174-185 | the number taken, or zero when not ready or not sent |
| FileExplorer.Explorer.OnStartOp | src/tm_session/file_explorer_controller.cpp:228-281 | an operation is remembered under its number only when it was sent |
| FileExplorer.Explorer.OnDfmpOpReply | src/tm_session/file_explorer_controller.cpp:283-292 | a reply retires its own number and always reports |
| FileExplorer.Explorer.OnDfmpGetEntriesReply | src/tm_session/file_explorer_controller.cpp:294-306 | only the outstanding listing is reported, once |
| FileExplorer.Explorer.OnTransfer | src/tm_session/file_explorer_controller.cpp:187-226 | a transfer takes a number and leaves no entry |
| FileExplorer.Explorer.OnSessionInvalidated | src/tm_session/file_explorer_controller.cpp:308-311 | forgets the listing and keeps the operations |
| FileExplorerRuns.OperationReported | src/tm_session/frame_dispatcher.cpp:170-191 | a frame whose words say it ends an operation reports that operation with its marker and status and retires it |
| FileExplorerRuns.ListingReported | src/tm_session/frame_dispatcher.cpp:170-195 | a reply with any other marker answers the outstanding listing if the number is its own |
| FileExplorerRuns.OtherFramesPass | src/tm_session/frame_dispatcher.cpp:170-195 | every other frame leaves the file explorer alone |
| FileExplorerRuns.StartedIsReported | src/tm_session/file_explorer_controller.cpp:174-292 | over every run of all controllers inside an epoch, an operation that went out is reported as what it is when its own reply comes |
| FileExplorerRuns.ListedIsReported | src/tm_session/file_explorer_controller.cpp:22-306 | a listing is reported for the directory asked for, with the body of its reply, unless another one is asked for in between |
| SharedCounter.SessionStep | src/tm_session/session_controller.cpp:276-466 | every session event keeps readiness, stream and signal order in step |
| SharedCounter.TablesStayApart | src/tm_session/session_controller.h:42-44 | over every run inside one epoch the kernel table, the operation table and the listing never share a number and no outstanding entry is overwritten |
| SharedCounter.ApartStep | src/tm_session/kernel_explorer_controller.cpp:27-58 | the same for one event of any controller |
| SharedCounter.BootIsApart | src/tm_session/session_controller.h:82-92 | the three tables start apart, on one counter |
| SharedCounter.FrameAnswersOne | src/tm_session/frame_dispatcher.cpp:170-204 | a frame answers at most one request of one controller |
| SharedCounter.SessionEmptiesNoTable | src/tm_session/target_session.cpp:37-140 | whatever the session goes through, every outstanding request, listing and operation stays |
| SharedCounter.NextEpochIsSafeIff | src/tm_session/session_controller.cpp:397-408 | after a handshake that restarts the counter, every run of the new epoch keeps the three tables without a common number, if and only if every number still held lies below the restart |
| SharedCounter.StaleNumberCrosses | src/tm_session/session_controller.cpp:397-408 | a mutex request left over from the last epoch and a delete of the next one share a number, and the frame that answers the delete retires both |
| KernelExplorer.Explorer.SendDbgp | src/tm_session/kernel_explorer_controller.cpp:27-58 | the entry is in the table after the call if and only if the send succeeded |
| KernelExplorer.Explorer.OnRefresh | src/tm_session/kernel_explorer_controller.cpp:60-120 | clears the category's accumulator and asks for its list |
| KernelExplorer.Explorer.OnRefreshContainers | src/tm_session/kernel_explorer_controller.cpp:122-124 | one container request |
| KernelExplorer.Explorer.OnAct | src/tm_session/kernel_explorer_controller.cpp:126-148 | core dump, resume, pause and terminate ask once, and not at all without a process |
| KernelExplorer.Explorer.Dispatch | src/tm_session/kernel_explorer_controller.cpp:169-249 | the remembered command decides what the answer means |
| KernelExplorer.Explorer.AskAll | src/tm_session/kernel_explorer_controller.cpp:321-324 | one request per handle, two per process, in order |
| KernelExplorer.Explorer.OnListReply | src/tm_session/kernel_explorer_controller.cpp:340-357 | the accumulator is set up before the requests go out; empty lists end the exchange as each category does |
| KernelExplorer.Explorer.OnSyncInfo | src/tm_session/kernel_explorer_controller.cpp:97-104 | a parsed entry is kept, the handle is struck off everywhere, and the result is announced when none is left |
| KernelExplorer.Explorer.OnCountedInfo | src/tm_session/kernel_explorer_controller.cpp:195-206 | a parsed entry is kept and the result announced once enough answers are in |
| KernelExplorer.Explorer.OnProcessPart | src/tm_session/kernel_explorer_controller.cpp:275-303 | one part of one process is filled in, and the list announced when no memory answer is missing |
| KernelExplorer.Explorer.OnFrameReceived | src/tm_session/kernel_explorer_controller.cpp:150-250 | an accepted frame retires its number and does what the remembered command says; any other frame changes nothing |
| KernelExplorer.FrameIsAccepted | src/tm_session/kernel_explorer_controller.cpp:150-167 | every response with the reply bit whose length field covers its payload reaches the table lookup as what it is |
| KernelExplorer.RemoveAll | src/tm_session/kernel_explorer_controller.cpp:100 | removes every occurrence of the handle |
| KernelExplorer.FillFirst | src/tm_session/kernel_explorer_controller.cpp:280-282 | fills the first summary of that process only |
| KernelExplorerLaws.UnrelatedEvent | src/tm_session/kernel_explorer_controller.cpp:150-250 | an event that answers nothing of a category leaves its requests, accumulator and signals alone |
| KernelExplorerLaws.ItemAnswered | src/tm_session/kernel_explorer_controller.cpp:97-104 | an answer is absorbed, announced and retired |
| KernelExplorerLaws.AskMine | src/tm_session/kernel_explorer_controller.cpp:353-356 | a fan-out leaves exactly its delivered questions outstanding |
| KernelExplorerLaws.RunIsFold | src/tm_session/kernel_explorer_controller.cpp:150-250 | over every run the category's state is the fold of its own answers in arrival order, whatever else happens |
| KernelExplorerLaws.SilentIffDex | src/tm_session/kernel_explorer_controller.cpp:150-153 | when every frame carries the word the requests go out under, no run from any state announces anything, if and only if the console is a DEX one |
| KernelExplorerCompletion.ArrivalsAnswer | src/tm_session/kernel_explorer_controller.cpp:162-167 | each outstanding question is answered at most once, and only outstanding ones are |
| KernelExplorerCompletion.AnnouncesWhenCovered | src/tm_session/kernel_explorer_controller.cpp:97-104 | for every list of handles, repeated ones included, an answer announces exactly when the answers cover the list |
| KernelExplorerCompletion.AnnouncesOnce | src/tm_session/kernel_explorer_controller.cpp:195-206 | with distinct handles, or counted answers, the announcement is made once, with all answers in |
| KernelExplorerCompletion.FanOutCompletes | src/tm_session/kernel_explorer_controller.cpp:97-250 | for every reply order, with duplicate and unrelated frames, exactly one ready signal at the last answer, with the parsed entries in arrival order; none when a request was lost |
| KernelExplorerCompletion.ListReplyOpens | src/tm_session/kernel_explorer_controller.cpp:340-357 | a refresh and its list reply leave the fan-out just opened |
| KernelExplorerCompletion.CoveredEarlyAnnouncesTwice | src/tm_session/kernel_explorer_controller.cpp:97-104 | once a sync list is covered, every further answer announces again |
| KernelExplorerCompletion.AnnouncedOnceInEveryOrderIff | src/tm_session/kernel_explorer_controller.cpp:97-104 | a non-empty sync list is announced exactly once by every run that completes it, if and only if it names no handle twice |
| KernelExplorerCompletion.EmptyListReply | src/tm_session/kernel_explorer_controller.cpp:340-351 | an empty list is announced by the counted categories and by no sync category |
| KernelExplorerLayouts.LaidOutIsRead | src/tm_core/dbgp_codec.cpp:54-220 | a list reply laid out from items is read as exactly those items, whatever follows them |
| KernelExplorerLayouts.ListIsAskedAbout | src/tm_session/kernel_explorer_controller.cpp:182-357 | a refresh and a list reply laid out from items: exactly one question per item is outstanding, the numbers in the order of the list, and nothing else; lost sends leave theirs out |
| KernelExplorerLayouts.ProcessesAreAskedAbout | src/tm_session/kernel_explorer_controller.cpp:252-273 | the same for processes, with two questions each |
| KernelExplorerLayouts.ProcessListAppends | src/tm_session/kernel_explorer_controller.cpp:252-273 | a process list adds its processes to those already there, with nothing known of them yet |
| KernelExplorerLayouts.ListedIsOpen | src/tm_session/kernel_explorer_controller.cpp:182-357 | such a list reply leaves the fan-out just opened over its items |
| KernelExplorerLayouts.ListIsAnnounced | src/tm_session/kernel_explorer_controller.cpp:60-357 | from the bytes of the list to the signal: nothing before every listed item is answered, then one signal with the entries of the answers that are long enough, in arrival order |
| KernelExplorerLayouts.EntriesAreTaken | src/tm_session/kernel_explorer_controller.cpp:98-104 | an answer becomes an entry if and only if it has the bytes its kind needs, with the identity that kind has |
| KernelExplorerLayouts.NothingListed | src/tm_session/kernel_explorer_controller.cpp:182-357 | an empty list, or a thread list cut short: modules, threads and processes announce an empty result, the synchronisation kinds stay silent |
| KernelExplorerLayouts.AnnouncedFor | src/tm_session/kernel_explorer_controller.cpp:98-104 | for which process a result is announced when its answers come from an earlier refresh |
| KernelExplorerLayouts.ContainersAnnounced | src/tm_session/kernel_explorer_controller.cpp:239-245 | the containers of an answer are announced for the process asked about |
| KernelExplorerLayouts.ForeignFramesIgnored | src/tm_session/kernel_explorer_controller.cpp:150-160 | a frame of another category or session word, too short, or without the reply bit changes nothing |
| KernelExplorerLayouts.ContainersReadBack | src/tm_core/dbgp_codec.cpp:349-372 | a container list reads back: total, available, number and parent of each |
| KernelExplorerLayouts.SegmentsReadBack | src/tm_core/dbgp_codec.cpp:168-202 | the segments of a module read back, behind its fixed part and their count |
| ProcessListJoin.JoinIsFold | src/tm_session/kernel_explorer_controller.cpp:275-303 | after any answers the accumulator holds the joined summaries, and the lists announced are those of the reference |
| ProcessListJoin.NoListBeforeAllMemory | src/tm_session/kernel_explorer_controller.cpp:299-303 | no list before every memory answer |
| ProcessListJoin.LastListIsFull | src/tm_session/kernel_explorer_controller.cpp:275-303 | the last answer announces a list with both parts of every process |
| ProcessListJoin.ProcessListIsJoined | src/tm_session/kernel_explorer_controller.cpp:252-303 | the join over whole runs, for every order of the replies and whatever else happens |
| DbgpCodec.EncodeRequest | src/tm_core/dbgp_codec.cpp:21-34 | header, payload and checksum trailer, the sum wrapping at 32 bits |
| DbgpCodec.EncodedRequestChecks | src/tm_core/dbgp_codec.cpp:30-33 | the trailer is the byte sum less 0x10, modulo 256 |
| DbgpCodec.SingleByteChangeIsCaught | src/tm_core/dbgp_codec.cpp:30-33 | changing any single byte, trailer included, breaks the checksum |
| DbgpCodec.DecodesIffLengthCovers | src/tm_core/dbgp_codec.cpp:36-52 | a laid-out response reads back if and only if its length field covers its payload |
| WireLayouts.DbgpRequestLayout | src/tm_core/dbgp_codec.cpp:21-34 | each field of a request at its offset, and the value of its last byte |
| WireLayouts.SumOfParts | src/tm_core/dbgp_codec.cpp:21-34 | the byte sum of a message is that of its parts |
| WireLayouts.ResponseIsCut | src/tm_core/dbgp_codec.cpp:36-52 | a response gives up as much payload as its length word says and there is; fewer than 21 bytes are none |
| DbgpCodec.ParseThreadList | src/tm_core/dbgp_codec.cpp:63-83 | succeeds if and only if the payload holds all announced entries, and returns them |
| DbgpCodec.ThreadListReadsBack | src/tm_core/dbgp_codec.cpp:63-83 | the parser inverts the layout, whatever follows it |
| DbgpCodec.ParseHandleList | src/tm_core/dbgp_codec.cpp:208-220 | exactly the announced handles that fit, the 32-bit index never wrapping on a frame-sized payload |
| DbgpCodec.HandleListReadsBack | src/tm_core/dbgp_codec.cpp:208-220 | a laid-out handle list parses to its handles |
| DbgpCodec.ParseWords | src/tm_core/dbgp_codec.cpp:275-286 | exactly the announced 32-bit entries that fit |
| DbgpCodec.ParseLongWords | src/tm_core/dbgp_codec.cpp:251-255 | exactly the announced 64-bit waiters that fit |
| DbgpCodec.ParseSegments | src/tm_core/dbgp_codec.cpp:185-200 | exactly the announced segments that fit, and the sum of their sizes in 64 bits |
| DbgpCodec.ParseContainerInfo | src/tm_core/dbgp_codec.cpp:349-372 | exactly the announced containers that fit |
| DbgpCodec.ParseProcessList | src/tm_core/dbgp_codec.cpp:54-61 | every whole word of the payload |
| DfmpCodec.EncodeDfmp | src/tm_core/dfmp_codec.cpp:9-23 | appends header and body, the length field wrapping at 32 bits |
| DfmpCodec.RoundTripIffFits | src/tm_core/dfmp_codec.cpp:9-45 | a printed message reads back and consumes its own length if and only if its body fits the length field |
| DfmpCodec.ReprintsConsumed | src/tm_core/dfmp_codec.cpp:9-45 | printing a decoded message gives the bytes it consumed |
| DfmpCodec.SlotReadsBack | src/tm_core/dfmp_codec.cpp:111-127 | a path slot reads back the path, cut to what the slot can hold |
| DfmpCodec.BuildPathOpBody | src/tm_core/dfmp_codec.cpp:111-127 | kind, zero word and one path slot |
| DfmpCodec.BuildRenameBody | src/tm_core/dfmp_codec.cpp:129-140 | kind, zero word and two path slots |
| WireLayouts.DfmpLayout | src/tm_core/dfmp_codec.cpp:9-23 | each field of a message at its offset |
| WireLayouts.SlotLayout | src/tm_core/dfmp_codec.cpp:111-127 | a slot is 1056 bytes, of which at most 1055 are the path's and the rest zero |
| TsmpCodec.EncodeTsmp | src/tm_core/tsmp_codec.cpp:9-21 | appends header and body, the length field wrapping at 16 bits |
| TsmpCodec.RoundTripIffFits | src/tm_core/tsmp_codec.cpp:9-99 | a printed message reads back if and only if its total length fits 16 bits |
| TsmpCodec.ReprintsConsumed | src/tm_core/tsmp_codec.cpp:79-99 | printing a decoded message gives the bytes it consumed |
| TsmpCodec.ParseLparStatusReply | src/tm_core/tsmp_codec.cpp:33-58 | the loop returns the whole entries, or none when the last is cut short |
| TsmpCodec.LparsReadBack | src/tm_core/tsmp_codec.cpp:33-58 | a status reply parses to exactly the partitions it was laid out from |
| WireLayouts.TsmpLayout | src/tm_core/tsmp_codec.cpp:9-21 | each field of a message at its offset |
| WireLayouts.StatusIsWholeOrNothing | src/tm_core/tsmp_codec.cpp:33-58 | a status reply whose entries are not whole gives none |
| RpcLines.SplitOfSum | src/tm_session/rpc_client.cpp:77-83 | reading a buffer and then more is reading all of it at once |
| RpcLines.ChunkingIsIrrelevant | src/tm_session/rpc_client.cpp:77-83 | however a stream is cut the same lines come out and the same bytes are left over |
| RpcLineLaws.SpacingIsIrrelevant | src/tm_session/rpc_client.cpp:77-83 | lines with blanks around them come out as their bodies, blank ones not at all, and the unfinished rest is kept |
| RpcLineLaws.GarbageOnlyCounts | src/tm_session/rpc_client.cpp:84-93 | lines that are no messages are reported and change nothing else |
| RpcMessages.PrefixOfWire | src/tm_server/rpc_server.cpp:675-684 | any prefix of a wire splits into the first messages on it, and the leftover continues the rest |
| RpcClient.Rpc.DisconnectFromServer | src/tm_session/rpc_client.cpp:47-56 | empties the table and fails each handler in it exactly once |
| RpcClient.FailAll | src/tm_session/rpc_client.cpp:51-53 | each handler once, in no particular order |
| RpcClient.Rpc.Connect | src/tm_session/rpc_client.cpp:12-45 | disconnects first; a new connection starts with an empty buffer and keeps the numbering |
| RpcClient.Rpc.Call | src/tm_session/rpc_client.cpp:62-75 | a new number and one line on the wire, or a refusal at once |
| RpcClient.Rpc.OnReadyRead | src/tm_session/rpc_client.cpp:77-93 | the line loop handles every complete line in order and keeps the rest |
| RpcClient.Rpc.OnMessage | src/tm_session/rpc_client.cpp:95-109 | an event is passed on; a reply runs and retires its own handler; anything else changes nothing |
| RpcServer.Server.Attach | src/tm_server/rpc_server.cpp:654-673 | a new client starts with nothing buffered, the others keep what they have |
| RpcServer.Server.OnDestroyed | src/tm_server/rpc_server.cpp:658-665 | the client is forgotten, and the server quits exactly when it was the owner |
| RpcServer.Server.OnReadyRead | src/tm_server/rpc_server.cpp:675-684 | the line loop answers every complete line of this client in order; the other clients keep their buffers and bytes |
| RpcServer.Server.HandleLine | src/tm_server/rpc_server.cpp:686-730 | one reply per line, with the id echoed, also for malformed lines |
| RpcServer.Server.Dispatch | src/tm_server/rpc_server.cpp:702-717 | unknown, forbidden, without a target or without a session: the call is refused in that order, otherwise its body answers |
| RpcServer.BodyRunsIff | src/tm_server/rpc_server.cpp:702-717 | a method body runs exactly when the method is known, permitted, and has the target and session it needs; otherwise no body can show in the reply |
| RpcServer.RefusedBy | src/tm_server/rpc_server.cpp:702-717 | which refusal is given when, and which target the body gets otherwise |
| RpcServer.EveryLineIsAnswered | src/tm_server/rpc_server.cpp:686-730 | every line gets one line back, with its id; one that is no message gets an error without an id and is not counted |
| RpcServer.MutatingBodiesNeverShow | src/tm_server/rpc_server.cpp:675-730 | without permission the server writes the same bytes for every stream and every client whatever the mutating methods would do |
| RpcServer.Server.Send | src/tm_server/rpc_server.cpp:732-736 | one line to that client, if it can be written to |
| RpcServer.Server.BroadcastEvent | src/tm_server/rpc_server.cpp:738-743 | each client that can be written to gets the event once |
| RpcPairing.ServerReadsRefines | src/tm_server/rpc_server.cpp:675-730 | any piece of the byte stream serves a prefix of the queued requests |
| RpcPairing.ClientReadsRefines | src/tm_session/rpc_client.cpp:77-109 | any piece of the byte stream delivers a prefix of the queued messages |
| RpcPairing.RunRefines | src/tm_server/rpc_server.cpp:675-743 | every run of the bytes is a run of sound message queues |
| RpcPairing.HandlersRunAtMostOnce | src/tm_session/rpc_client.cpp:62-109 | over every run, cutting and interleaving: each handler at most once, only with its own request's outcome, and nothing reported malformed |
| RpcPairing.IdleMeansAllRan | src/tm_session/rpc_client.cpp:62-109 | with every line processed on a live link no handler is outstanding |
| RpcPairing.EveryCallIsAnswered | src/tm_session/rpc_client.cpp:62-109 | without a disconnect and with every line processed each handler has run exactly once, with its own outcome |
| RpcPairing.DisconnectFailsEach | src/tm_session/rpc_client.cpp:47-56 | a disconnect fails each outstanding handler exactly once, and none of them had run |
| RpcEvents.EventsArriveInOrder | src/tm_session/rpc_client.cpp:95-99 | over every run, cutting and interleaving: on the present link the client has passed on a prefix of the events broadcast while it was live, in order and each once, and all of them when nothing is under way |
| RpcEvents.EveryEventArrives | src/tm_server/rpc_server.cpp:738-743 | with one connection: a prefix of all events broadcast to it, and all of them once everything has been processed |
| LoadExt.BuildBody | src/tm_session/target_actions.cpp:286-352 | the step-by-step builder writes the body of the options |
| LoadExt.PackDebug | src/tm_session/target_actions.cpp:286-292 | the six debug flags, whatever order they are or-ed in |
| LoadExt.PackExtra | src/tm_session/target_actions.cpp:330-345 | the nine option bits and the four-bit attribute |
| LoadExt.DebugWordUnpacks | src/tm_session/target_actions.cpp:286-292 | each debug flag reads back from its own bit |
| LoadExt.ExtraWordUnpacks | src/tm_session/target_actions.cpp:330-345 | each option bit and the low four bits of the attribute read back |
| LoadExt.WordsSpellTheLine | src/tm_session/target_actions.cpp:294-300 | the pieces of a command line are non-empty, hold no blank and spell the line without its blanks |
| LoadExt.WordsOfJoined | src/tm_session/target_actions.cpp:294-300 | arguments without blanks come back from a command line that joins them |
| LoadExt.WirePathIsNulFree | src/tm_session/target_actions.cpp:268-275 | rewriting a path adds no NUL |
| LoadExtWire.OwnPathsStay | src/tm_session/target_actions.cpp:269-271 | paths below /app_home/, /host_root/ and the console's devices go out unchanged |
| LoadExtWire.HostPathsKeepTheirName | src/tm_session/target_actions.cpp:272-275 | any other path goes out as what follows its last slash, below /app_home/ |
| LoadExtWire.SeparatorsCut | src/tm_session/target_actions.cpp:294-300 | each of the six kinds of white space cuts a command line into the arguments of its two halves |
| LoadExtWire.OneArgument | src/tm_session/target_actions.cpp:294-300 | a piece without white space is one argument |
| LoadExtWire.HomeIsTheEnvironment | src/tm_session/target_actions.cpp:302-305 | the environment is the home directory, if there is one |
| LoadExtWire.UnusedBytesAreZero | src/tm_session/target_actions.cpp:327-352 | what no option writes in the last 148 bytes is zero |
| LoadExt.DecodeOfBody | src/tm_session/target_actions.cpp:310-352 | a decoder recovers the whole image for strings of every length |
| LoadExt.BodyDecodes | src/tm_session/target_actions.cpp:286-352 | everything the options make visible is recovered |
| LoadExt.SameBodyIffSameSeen | src/tm_session/target_actions.cpp:286-352 | two loads have the same body exactly when they look the same to the console |

## Left out

- the user interface, the tray, the launcher and the command line: widgets and I/O.
- sockets, timers, name resolution, Wake-on-LAN, ARP and the HTTP client of the CP: a send is an outcome the caller supplies.
- socket errors that are not framing errors, and the two ways of disconnecting on request: they change the state field and nothing that is modelled.
- reconnecting: src/tm_session/target_session.cpp:216-220 clears the flag it depends on after the first drop.
- re-entrant handlers: a callback that calls back into the object that runs it.
- texts of log lines, status messages and error strings; which of them is emitted is modelled, and so is their number where it matters.
- the host file system: what exists, sizes, times and the effect of a write, rename or removal are answers the host gives; every law holds for all of them.
- the bytes of the built-in PARAM.SFO: a constant.
- a RENAME request without a second path: src/tm_session/host_file_server.cpp:38-42 then computes a length from an offset past the end and reads beyond the buffer; the model takes the missing path as empty.
- the memory for a list: src/tm_core/dbgp_codec.cpp:70, :76, :213 and :354 reserve room for the announced 32-bit count before the payload is looked at; the reservation is taken to succeed.
- path cleaning on Windows, UNC names and case-insensitive comparison of authorised paths: the POSIX build is modelled.
- letters outside ASCII in a drive name, and Unicode in paths: a path is a sequence of characters that are compared one by one.
- the order of the code's own steps inside one DRFP handler where no state and no reply depends on it.
- the fields of item information: an information parser accepts by size and keeps its payload; the names, counters and waiter lists inside are covered only by the list loops.
- the contents of a get-entries reply, DEX or not, and the bodies of mkdir, chmod, utime and transfer requests.
- registration and deregistration lists, boot parameters, version strings and the TTY text of a session.
- the bodies of the RPC methods, the choice of a target and the entries of the method table: parameters of the server.
- the shutdown announcement of the RPC server.
- the JSON library: `Lawful` states what is needed of it.
- wrap-around of the RPC call number at 2^31.
- holding a load back until the console has been reset, and the requests around a load.
- options of a load that never reach the wire.
- the code and state name tables, `expand_cidr`, `parse_mac` and the discovery probes.
- HostFileServerObject.Server.HandleSeek: does not model signed 64-bit overflow of the target, because positions are unbounded integers here.
- HostFileServerLaws.SeekThenReads: assumes a file of fewer than 2^31 bytes, because the program holds its content in an int-sized byte array.
- KernelExplorerCompletion.AnnouncedOnceInEveryOrderIff: needs room for the numbers of the answering run below 2^32, because the counter wraps.
- SharedCounter.NextEpochIsSafeIff: speaks of runs in which the counter does not wrap, because after a wrap every held number is reached again.
- SharedCounter.TablesStayApart: needs fewer than 2^32 numbers in an epoch, because the counter wraps and nothing checks that a number is free.
- KernelExplorerCompletion.FanOutCompletes: assumes no second refresh of the same category during the run, because the accumulator does not tell two refreshes apart.
- KernelExplorerLayouts.ListIsAnnounced: assumes no second refresh of the same category during the run, for the same reason.
- KernelExplorerLayouts.ProcessesAreAskedAbout: assumes that every request was sent, because one of two lost leaves half a process.
- FileExplorerRuns.StartedIsReported: speaks of one epoch, because the next one restarts the numbers.
- FileExplorerRuns.ListedIsReported: speaks of one epoch, because the next one restarts the numbers.
- HostFileServerHandles.LiveIffOpenSince: needs fewer than 2^32 - 0x1000 opens, because the descriptor counter wraps.
- ProcessListJoin.ProcessListIsJoined: assumes distinct processes and that every request was sent, because a lost memory request leaves its process outstanding for ever.
- HostFileServerLaws.DescriptorsStaySound: needs fewer than 2^32 - 0x1000 opens, because the descriptor counter wraps.
- HostFileServerBounds.HandlesStayInside: once the counter has wrapped, a descriptor handed out again on the very path it already holds keeps its first opening, because the tables cannot tell the two.
- LoadExt.BodyDecodes: needs path, command line and home directory free of NUL, because a NUL ends a string on the wire.
- RpcPairing.EveryCallIsAnswered: assumes one connection, because a disconnect answers in the server's place.
- DbgpCodec.ParseWords: needs a payload that fits a frame, because the 32-bit index of the loop wraps on a larger one.
