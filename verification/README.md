# Deskflow client: the protocol stack

A model of the native client for the Deskflow/Barrier protocol, with proofs about whole runs of it.

| files | what they model |
|---|---|
| byte_order, socket_stream, framing | octets, the buffered TCP stream, length-prefixed frames |
| formats, codec_laws, proto_util, messages, wire_layout | the format language, its two interpreters, the protocol's messages and their octets |
| clipboard | the clipboard container, the announced size, the chunks |
| client_model, effects, message_loop, connection, client | what a message does and changes, the loop over octets, greeting and attempts, the client object |
| runs, key_invariants, modifiers, mouse_invariants, injection_safety, wishes, pointing, worker_invariants | invariants of every run, and of every worker |
| loop_refinement, transfers, end_to_end, conversation, running_phase, verdicts | the loop against its messages, clipboard transfers, replies, no-ops, reconnecting |
| lifecycle | start, stop and the worker threads, interleaved |
| tray, mouse_trail | the status bar updater and the ease-out mouse trail |

## How it is built

Classes carry the source's mutable objects (`SocketStream`, `DeskflowClient`, `StatusBarManager`). Each
method is proved against a function on values: the stream against `Input` and `Output` (everything unread,
everything sent), the client against `Core` and `Handle`, the loop against `Iterate`, a worker against
`AfterAttempts`. The laws are lemmas about those functions. `recv` and `send` move any positive number of
octets and may be interrupted; every injection is an event in a ghost trace.

`Ambient` is what other threads and the system decide while one message is handled: the syncing and
scroll-inversion switches and how many axis events the system accepts in a row. It is arbitrary for each
passage of the loop, and so are the stop and reconnect flags between the worker's steps: the client object
meets them as an arbitrary function from moments to what happens then.

A run (`Runs.Run`) is any list of handled messages, attempts begun, hellos refused, texts pushed
and screen sizes set; `Runs.AttemptsAreActions` shows that whatever octets a worker receives amount to such
a run, without any setting of the size.

## What the code does that its documentation does not say

The model follows the code.

- `%%` in a format is written as one octet but consumes none when read. No message uses it. The exact
  condition for a round trip is `CodecLaws.ReadsBackExactlyWhenSafe`.
- The name in the server's hello is only checked for its length, which the format fixes at seven; the major
  version is checked.
- No-ops are said to start with DSOP. They start with the first DSOP of the client's life: the flag is kept
  across connections (`RunningPhase.WorkerPhaseFollowsOptions`), so that a later connection can have no-ops
  without any DSOP (`RunningPhase.NoopBeforeOptions`).
- Key states, held buttons and a half-received clipboard also survive a reconnection. Leaving the screen
  releases buttons but not keys.
- The end of a clipboard transfer is accepted whatever the announced size was.
- Icon and menu of the tray item can disagree after `add()` (`Tray.AddCanDisagree`; `Tray.IconAndMenuAgree`
  says exactly when they agree).
- Setting the size of the screen does not move the pointer, so that the next button event can be at another
  place than the last move (`Pointing.ResizeCanMoveButtons`; `Pointing.ButtonsActWherePointed` says exactly
  when it is not).

## Model

| member | source | states |
|---|---|---|
| Sockets.SocketStream.ReadExact | entry/src/main/cpp/protocol/socket_stream.cpp:81-102 | returns exactly the next n unread octets (push-back buffer first, then the socket) however recv splits them and however often it is interrupted; fails exactly when fewer than n are left; the buffer position never passes the buffer |
| Sockets.SocketStream.WriteAll | entry/src/main/cpp/protocol/socket_stream.cpp:104-118 | however send splits the data, the peer gets exactly the data, or on failure exactly the prefix it had room for |
| Sockets.SocketStream.ReadFrame | entry/src/main/cpp/protocol/socket_stream.cpp:120-138 | one length-prefixed frame of the unread octets; refused exactly above 4 MiB or when octets are missing |
| Sockets.SocketStream.WriteFrame | entry/src/main/cpp/protocol/socket_stream.cpp:140-155 | sends the length and the payload; refused exactly above 4 MiB or when the peer has no room |
| Sockets.SocketStream.PushToBuffer | entry/src/main/cpp/protocol/socket_stream.cpp:157-160 | the octets pushed back are read before anything still on the socket |
| Sockets.SocketStream.Close | entry/src/main/cpp/protocol/socket_stream.cpp:162-170 | nothing stays readable or pushed back; what has been sent is unaffected |
| Framing.FramesReadBack | entry/src/main/cpp/protocol/socket_stream.cpp:120-155 | reading frames back from the octets of any list of payloads of at most 4 MiB gives that list, wherever buffer and socket meet |
| Framing.FramesAreInjective | entry/src/main/cpp/protocol/socket_stream.cpp:120-155 | two lists of payloads of at most 4 MiB have the same octets if and only if they are the same list |
| Framing.PayloadsReencode | entry/src/main/cpp/protocol/socket_stream.cpp:120-138 | on arbitrary octets: the frames read re-encode to exactly what was consumed, and each is within the limit |
| Framing.WriteFramesSendsFrames | entry/src/main/cpp/protocol/socket_stream.cpp:140-155 | a list of frames is accepted if and only if each is within the limit and the peer has room for all; for payloads within the limit what arrives is their octets or, on failure, the prefix there was room for |
| Framing.FrameLimitIsExact | entry/src/main/cpp/protocol/socket_stream.cpp:130-144 | a frame is read, and written when there is room, exactly up to 4,194,304 octets |
| Framing.PushedIsReadNext | entry/src/main/cpp/protocol/socket_stream.cpp:81-87 | what is pushed back is read after what was pushed back before and ahead of the socket |
| ByteOrder.BigEndianShifts | entry/src/main/cpp/protocol/proto_util.cpp:15-27 | integers go out high octet first |
| ProtoUtil.ScanWidth | entry/src/main/cpp/protocol/proto_util.cpp:37-41 | the decimal width loop consumes exactly the run of digits and computes its value modulo 2^32 |
| ProtoUtil.Writef | entry/src/main/cpp/protocol/proto_util.cpp:29-114 | walking the format string appends exactly the encoding of the argument list under the parsed items |
| ProtoUtil.Readf | entry/src/main/cpp/protocol/proto_util.cpp:116-267 | walking the format string succeeds exactly when the unread octets decode under the parsed items, returns the decoded values and consumes nothing more |
| CodecLaws.RoundTrip | entry/src/main/cpp/protocol/proto_util.cpp:29-267 | reading what was written, whatever follows it, gives the arguments normalised (integers modulo 2^(8 width), fixed strings cut or padded) and leaves exactly what follows |
| CodecLaws.ReadsBackExactlyWhenSafe | entry/src/main/cpp/protocol/proto_util.cpp:29-267 | the round trip holds if and only if the format has no %% and no unknown conversion and every argument is within the limits of the reader |
| CodecLaws.Reencode | entry/src/main/cpp/protocol/proto_util.cpp:116-267 | whenever reading succeeds, writing the results gives exactly the octets consumed (for formats without %%; with them, one octet more for each) |
| CodecLaws.PercentIsNotReadBack | entry/src/main/cpp/protocol/proto_util.cpp:249-250 | the concrete failure: %% is written as one octet and read as none, which is left unread |
| CodecLaws.DecodeIgnoresWhatFollows | entry/src/main/cpp/protocol/proto_util.cpp:116-267 | octets after a complete message never change how it is read |
| CodecLaws.EncodeIsInjective | entry/src/main/cpp/protocol/proto_util.cpp:29-114 | two argument lists within the limits are written alike if and only if they are equal once normalised |
| CodecLaws.DirectiveMeans | entry/src/main/cpp/protocol/proto_util.cpp:34-107 | a directive with any decimal width, read modulo 2^32, stands for what its letter says; with width 0 a string is a counted one |
| CodecLaws.StringLimitsAreExact | entry/src/main/cpp/protocol/proto_util.cpp:217-248 | a counted string is read exactly up to 1 MiB, raw octets exactly up to 4 MiB |
| CodecLaws.CountLimitIsExact | entry/src/main/cpp/protocol/proto_util.cpp:163-205 | a vector is read exactly up to 1,048,576 numbers |
| CodecLaws.PadIs | entry/src/main/cpp/protocol/proto_util.cpp:81-94 | a fixed-width string is cut, or filled up with zeros at the end |
| Messages.ArgFormatsParse | entry/src/main/cpp/protocol/protocol_types.h:34-72 | the format strings of all messages, as written in the source, stand for the items the model uses |
| Messages.FormatWritesPayload | entry/src/main/cpp/protocol/protocol_types.h:34-72 | a whole format constant (letters of the key, then directives) writes the key and the encoded arguments |
| Messages.KeysDispatch | entry/src/main/cpp/protocol/deskflow_client.cpp:525-853 | every message kind is dispatched by its own key and by no other |
| Messages.DispatchIsSound | entry/src/main/cpp/protocol/deskflow_client.cpp:525-853 | a key dispatched to a kind is the key of that kind |
| Messages.MessageReadsBack | entry/src/main/cpp/protocol/deskflow_client.cpp:525-853 | every message within the limits is parsed back from its octets as itself, leaving exactly what follows, with signed and unsigned arguments restored |
| Messages.ParsedReencodes | entry/src/main/cpp/protocol/deskflow_client.cpp:525-853 | whatever octets parse as a message are the octets of that message followed by what is left |
| Messages.PayloadsAreDistinct | entry/src/main/cpp/protocol/protocol_types.h:34-72 | two messages within the limits have the same octets if and only if they are the same message |
| WireLayout.MessageIsLaidOut | entry/src/main/cpp/protocol/protocol_types.h:34-72 | every message on the wire, octet by octet: its four letters, then its fields in this order and with these widths |
| WireLayout.LayoutIsParsed | entry/src/main/cpp/protocol/deskflow_client.cpp:525-853 | such octets, with anything after them, are parsed as the message |
| WireLayout.RepliesAreMessages | entry/src/main/cpp/protocol/deskflow_client.cpp:466-541 | the no-op and the echo the client writes are parsed as CNOP and CALV |
| WireLayout.HelloIsLaidOut | entry/src/main/cpp/protocol/protocol_types.h:28-28 | the hello of a server: seven octets of name and the version |
| WireLayout.HelloBackIsLaidOut | entry/src/main/cpp/protocol/protocol_types.h:30-30 | the hello back: the same name, version 1, the lower minor version, the counted screen name |
| WireLayout.UploadCarriesSession | entry/src/main/cpp/protocol/deskflow_client.cpp:311-339 | every message of an upload is for clipboard 0 and carries the session number |
| Clipboards.MarshalText | entry/src/main/cpp/protocol/deskflow_client.cpp:250-264 | builds the container that holds the text as its only entry, format 0 |
| Clipboards.UnmarshalText | entry/src/main/cpp/protocol/deskflow_client.cpp:267-297 | terminates on arbitrary octets, never reads out of range, and returns nothing or a contiguous slice: the text the container stands for |
| Clipboards.UnmarshalFindsFirstText | entry/src/main/cpp/protocol/deskflow_client.cpp:267-297 | a container of any entries, whatever follows it, gives the data of its first format-0 entry, or nothing if it has none |
| Clipboards.UnmarshalInvertsMarshal | entry/src/main/cpp/protocol/deskflow_client.cpp:250-297 | every text below 4 GiB is recovered from its container |
| Clipboards.UnmarshalReads | entry/src/main/cpp/protocol/deskflow_client.cpp:267-297 | octets that begin like a container whose first text entry is complete give that text, whatever follows and however many more entries are announced |
| Clipboards.UnmarshalSource | entry/src/main/cpp/protocol/deskflow_client.cpp:267-297 | the converse on arbitrary octets: a text is only extracted from octets of that form |
| Clipboards.StoullInvertsDecimal | entry/src/main/cpp/protocol/deskflow_client.cpp:745-749 | parsing the printed size gives the size, for every 64-bit size |
| Clipboards.StoullReads | entry/src/main/cpp/protocol/deskflow_client.cpp:745-749 | white space, a sign or none, zeros, a number and then anything but a digit: the number is read unless it exceeds 64 bits, with a minus modulo 2^64 |
| Clipboards.StoullNeedsDigits | entry/src/main/cpp/protocol/deskflow_client.cpp:745-749 | without a digit after the white space and the sign it throws |
| Clipboards.ChunksAreFull | entry/src/main/cpp/protocol/deskflow_client.cpp:318-332 | every chunk but the last has exactly 524,288 octets, the last at most |
| Clipboards.TextContainerIsLaidOut | entry/src/main/cpp/protocol/deskflow_client.cpp:250-264 | the container is one format, number 0, the length, the text |
| Clipboards.ChunksJoin | entry/src/main/cpp/protocol/deskflow_client.cpp:327-332 | cutting into 512 KiB chunks loses and reorders nothing, and no chunk is empty or too long |
| Clipboards.TextContainerLength | entry/src/main/cpp/protocol/deskflow_client.cpp:250-264 | the container is twelve octets longer than the text |
| Client.DeskflowClient.constructor | entry/src/main/cpp/protocol/deskflow_client.h:100-161 | a new client is in the initial state the run invariants start from |
| Client.DeskflowClient.InjectMouseMove | entry/src/main/cpp/protocol/deskflow_client.cpp:898-935 | one move event, clamped off the edges, carrying the lowest-numbered held button |
| Client.DeskflowClient.InjectMouseButton | entry/src/main/cpp/protocol/deskflow_client.cpp:937-973 | one button event at the clamped pointer and the new held state; buttons 4 and 5 scroll and are not recorded, others do nothing |
| Client.DeskflowClient.InjectMouseWheel | entry/src/main/cpp/protocol/deskflow_client.cpp:978-1015 | BEGIN, UPDATE, END of one gesture, up to and including the first event the system refuses |
| Client.DeskflowClient.SyncModifierKeys | entry/src/main/cpp/protocol/deskflow_client.cpp:873-894 | the loop over the six bits leaves keys and trace as synchronising the modifiers one by one does |
| Client.DeskflowClient.OnKey | entry/src/main/cpp/protocol/deskflow_client.cpp:637-690 | modifiers first, then a press or release only if the key is not already in that state |
| Client.DeskflowClient.OnEnter | entry/src/main/cpp/protocol/deskflow_client.cpp:542-566 | the pointer moves exactly when both coordinates are non-negative; session number and modifiers are taken over |
| Client.DeskflowClient.OnLeave | entry/src/main/cpp/protocol/deskflow_client.cpp:567-578 | held buttons are released in ascending order and forgotten; keys stay as they are |
| Client.DeskflowClient.OnMouseRelMove | entry/src/main/cpp/protocol/deskflow_client.cpp:595-610 | the pointer moves by the deltas and is kept on the screen |
| Client.DeskflowClient.OnClipboard | entry/src/main/cpp/protocol/deskflow_client.cpp:737-793 | start, data and end marks act on the transfer in progress as the assembly function says |
| Client.DeskflowClient.HandleMessage | entry/src/main/cpp/protocol/deskflow_client.cpp:525-853 | state, output, remaining input and verdict are those of parsing the arguments and handling the message; a malformed message or unknown key ends the loop and changes no state |
| Client.DeskflowClient.Handshake | entry/src/main/cpp/protocol/deskflow_client.cpp:482-523 | a matching hello is answered and leaves exactly what follows it; a mismatch gives up reconnecting; any other failure does not |
| Client.DeskflowClient.OneMessage | entry/src/main/cpp/protocol/deskflow_client.cpp:442-473 | one passage of the loop over the octet stream: frame, push-back, key, handler, no-op |
| Client.DeskflowClient.HandleMessages | entry/src/main/cpp/protocol/deskflow_client.cpp:442-473 | the loop makes a passage for every moment up to the end of the connection or the first at which the surroundings request a stop, no fewer and no more, each observing that moment |
| Client.DeskflowClient.RunOnce | entry/src/main/cpp/protocol/deskflow_client.cpp:414-480 | one connection from connect to close; the stream is left closed with nothing readable, and the answer says whether another attempt makes sense |
| Client.DeskflowClient.BackOff | entry/src/main/cpp/protocol/deskflow_client.cpp:397-404 | waits the whole interval in steps of 100 ms unless the surroundings request a stop |
| Client.DeskflowClient.OneAttempt | entry/src/main/cpp/protocol/deskflow_client.cpp:387-402 | the flag is raised, the connection is run, and the loop goes round exactly when the three conditions allow it |
| Client.DeskflowClient.Run | entry/src/main/cpp/protocol/deskflow_client.cpp:383-411 | the worker makes a chain of attempts, at least one unless stopped before, each but the last followed by another; it ends only when the surroundings have requested a stop, when out of connections, or after an attempt that is not to be followed by another; the running flag is cleared |
| Client.DeskflowClient.Start | entry/src/main/cpp/protocol/deskflow_client.cpp:220-233 | refused without effect while a worker is running; otherwise the target is taken over and the stop flag cleared |
| Client.DeskflowClient.SetScreenSize | entry/src/main/cpp/protocol/deskflow_client.h:56-60 | only the size of the screen changes; the pointer stays where it was, on the new screen or not |
| Client.DeskflowClient.SendClipboard | entry/src/main/cpp/protocol/deskflow_client.cpp:301-343 | writes the frames of start, chunks and end in order, stopping at the first that cannot be written; does nothing before the running phase or for an empty text |
| Client.DeskflowClient.PushClipboard | entry/src/main/cpp/protocol/deskflow_client.cpp:363-370 | claims the clipboard, then uploads; does nothing with syncing off |
| Runs.AttemptsAreActions | entry/src/main/cpp/protocol/deskflow_client.cpp:383-480 | whatever octets arrive, however split, and however connections end, the attempts of a worker are a run that handles exactly the messages parsed from those octets, each with what was observed then |
| KeyInvariants.KeysAlternate | entry/src/main/cpp/protocol/deskflow_client.cpp:637-690 | over any run, for every 32-bit key: presses and releases alternate starting with a press, and the recorded state is that of the last one |
| Modifiers.SyncFollows | entry/src/main/cpp/protocol/deskflow_client.cpp:873-894 | synchronising brings all six modifier keys into agreement with the low six bits of the mask, from any state |
| Modifiers.FollowsMeans | entry/src/main/cpp/protocol/deskflow_client.cpp:858-869 | agreement key by key: Shift, Control, Alt, Meta, Super and AltGr are down exactly as bits 0 to 5 of the mask are 1, whatever the other bits are |
| Modifiers.ModifiersFollowLatestMask | entry/src/main/cpp/protocol/deskflow_client.cpp:553-559 | over any run in which a mask was parsed, from any state and across reconnections, the six modifier keys are down exactly as the latest mask says |
| Modifiers.MessageKeysAreNotModifiers | entry/src/main/cpp/protocol/deskflow_client.cpp:638-643 | a sign-extended 16-bit key is never one of the six modifier keysyms |
| Modifiers.MaskBitsSurviveSignExtension | entry/src/main/cpp/protocol/deskflow_client.cpp:553-642 | sign extension of the mask leaves the six modifier bits as sent |
| Modifiers.OtherMessagesKeepKeys | entry/src/main/cpp/protocol/deskflow_client.cpp:567-636 | a message without a mask changes no key state |
| MouseInvariants.DragsAreConsistent | entry/src/main/cpp/protocol/deskflow_client.cpp:898-973 | over any run: only buttons 1 to 3 are recorded, a button is held exactly when its last event was a press, and every move carries the lowest button held at that moment |
| Effects.LeaveReleasesHeld | entry/src/main/cpp/protocol/deskflow_client.cpp:567-578 | leaving injects exactly one release for each held button, lowest first, and nothing else, and changes nothing but the held buttons and the active flag |
| Effects.HandleChanges | entry/src/main/cpp/protocol/deskflow_client.cpp:525-853 | every message changes no more than its own fields (told field by field) and injects exactly the move, button and wheel events told from the message and the state before, then key events only |
| Effects.PointerEventKinds | entry/src/main/cpp/protocol/deskflow_client.cpp:898-1015 | exactly the messages that move inject a move, exactly the presses, releases and leaves with something held inject button events, all at the clamped pointer |
| InjectionSafety.StretchIsSafe | entry/src/main/cpp/protocol/deskflow_client.cpp:898-1015 | what is injected while the size of the screen is not set lies, on a screen of at least 2 by 2, in [1,W-1]x[1,H-1]; wheel events come in BEGIN/UPDATE/END groups of one axis, value and point, cut short only by a refusal |
| InjectionSafety.InjectionIsSafe | entry/src/main/cpp/protocol/deskflow_client.cpp:898-1015 | the same over any run, also when the size is set in between, with W and H the largest sizes |
| InjectionSafety.ClampIsSafeExactlyFromTwo | entry/src/main/cpp/protocol/deskflow_client.cpp:903-904 | clamping always lands in [1, size-1] if and only if the size is at least 2 |
| InjectionSafety.ClampIsNearest | entry/src/main/cpp/protocol/deskflow_client.cpp:903-904 | no safe coordinate is nearer to the one asked for than the clamped one |
| InjectionSafety.WheelInjects | entry/src/main/cpp/protocol/deskflow_client.cpp:978-1015 | a scroll: vertical exactly with a vertical delta, turned round on request, else horizontal; at the pointer; three events as long as the system accepts |
| InjectionSafety.WheelButtonsScroll | entry/src/main/cpp/protocol/deskflow_client.cpp:940-946 | buttons 4 and 5, pressed or released, scroll up and down by one |
| Pointing.RelMoveStaysOnScreen | entry/src/main/cpp/protocol/deskflow_client.cpp:595-610 | after a relative move the pointer is in [0,W-1]x[0,H-1] |
| Pointing.RelMoveIsNearest | entry/src/main/cpp/protocol/deskflow_client.cpp:600-607 | it is the point of the screen nearest to the sum of pointer and deltas: the sum itself if that is on the screen |
| Pointing.ScreenIsLastSet | entry/src/main/cpp/protocol/deskflow_client.h:56-60 | over any run the screen has the width and height last set |
| Pointing.OnScreenExactlyFromOne | entry/src/main/cpp/protocol/deskflow_client.cpp:600-605 | a relative move always lands on the screen if and only if the screen is not empty |
| Pointing.PointerStaysInRange | entry/src/main/cpp/protocol/deskflow_client.cpp:585-610 | over any run, also when the size is set in between, the pointer stays within 16-bit coordinates or the largest screen |
| Pointing.RelMoveCannotOverflow | entry/src/main/cpp/protocol/deskflow_client.cpp:600-601 | so adding a relative move does not overflow 32 bits on screens up to 2^31 - 2^15 |
| InjectionSafety.ScrollDirections | entry/src/main/cpp/protocol/deskflow_client.cpp:978-990 | inversion turns vertical scrolling round and leaves horizontal alone; with both deltas only the vertical one counts |
| Wishes.KeysFollowMessages | entry/src/main/cpp/protocol/deskflow_client.cpp:637-690 | over any run a key that is not a modifier is down exactly as the last message about it asked, whatever masks, leaves and reconnections come in between |
| Wishes.ButtonsFollowMessages | entry/src/main/cpp/protocol/deskflow_client.cpp:567-628 | over any run a button is held exactly as the last message about it asked, a leave being one |
| Wishes.SessionFollowsMessages | entry/src/main/cpp/protocol/deskflow_client.cpp:551-568 | over any run the session number is that of the last CINN, and the client is active exactly since a CINN without a later COUT |
| Pointing.ButtonsActWherePointed | entry/src/main/cpp/protocol/deskflow_client.cpp:898-973 | over any run, whatever sizes are set in between: every button is pressed and released where the last move before it went if and only if at each press or release the pointer, clamped to the screen of that moment, is still where the last move or entry put it |
| Pointing.ButtonsActOnOneScreen | entry/src/main/cpp/protocol/deskflow_client.cpp:898-973 | so on one screen buttons always act where the pointer was last moved to |
| Pointing.ResizeCanMoveButtons | entry/src/main/cpp/napi_init.cpp:211-231 | the concrete failure: the screen is made smaller between two connections and a button is pressed before any move of the second |
| Pointing.PointerFollowsMessages | entry/src/main/cpp/protocol/deskflow_client.cpp:542-610 | between two settings of the size the pointer is where the moves and entries among the messages put it; nothing else moves it |
| WorkerInvariants.WorkerFollowsMessages | entry/src/main/cpp/protocol/deskflow_client.cpp:383-480 | the same for a worker on arbitrary octets: keys, buttons, pointer, session number and activity can be told from the messages parsed |
| WorkerInvariants.WorkerStaysConsistent | entry/src/main/cpp/protocol/deskflow_client.cpp:383-480 | key alternation, drag consistency and buttons acting where pointed hold after any attempts of a worker on arbitrary octets, on any screen |
| WorkerInvariants.WorkerStaysSafe | entry/src/main/cpp/protocol/deskflow_client.cpp:383-480 | injection safety and the range of the pointer hold after any attempts of a worker on a screen of at least 2 by 2 |
| WorkerInvariants.WorkerFollowsLastMask | entry/src/main/cpp/protocol/deskflow_client.cpp:383-480 | after any attempts, the modifier keys agree with the last mask parsed from the octets received |
| WorkerInvariants.FreshClientIsSound | entry/src/main/cpp/protocol/deskflow_client.h:100-161 | a client that has not been connected yet meets what the worker keeps |
| LoopRefinement.LoopHandlesMessages | entry/src/main/cpp/protocol/deskflow_client.cpp:442-473 | for any well-formed messages, each in one frame, the octet-level loop does what handling the messages one by one does, up to the first whose handling ends it, and leaves exactly what follows |
| LoopRefinement.BufferEmptyAtLoopHeads | entry/src/main/cpp/protocol/deskflow_client.cpp:442-473 | at every loop head the push-back buffer is empty and exactly the messages so far have been dispatched, in order |
| LoopRefinement.IterateHandlesMessage | entry/src/main/cpp/protocol/deskflow_client.cpp:453-472 | one passage over a well-formed frame dispatches its message, whatever octets follow |
| LoopRefinement.LoopHandlesWhatItParses | entry/src/main/cpp/protocol/deskflow_client.cpp:442-473 | over arbitrary octets the loop does what handling the messages it parses does, one for each of its first passages |
| MessageLoop.IterationConsumes | entry/src/main/cpp/protocol/deskflow_client.cpp:442-473 | a passage that goes on has consumed at least the length prefix and the key, so the loop ends on finite input |
| Transfers.AssemblyIgnoresOthers | entry/src/main/cpp/protocol/deskflow_client.cpp:728-794 | over any run the transfer in progress and the texts delivered depend on the clipboard messages alone |
| Transfers.TransferDelivers | entry/src/main/cpp/protocol/deskflow_client.cpp:728-794 | if the clipboard messages of a run are an accepted start, data and an end, exactly the text of the chunks joined in order is delivered, whatever comes in between |
| Transfers.StrayChunksAreIgnored | entry/src/main/cpp/protocol/deskflow_client.cpp:757-793 | data or an end with no transfer under way, or an unknown mark at any time, changes nothing |
| Transfers.StartBeginsAfresh | entry/src/main/cpp/protocol/deskflow_client.cpp:741-756 | a start drops what was under way and takes size and number over; a size that cannot be read counts as 0 |
| Transfers.LastTextIsRemembered | entry/src/main/cpp/protocol/deskflow_client.cpp:775-784 | over any run the text remembered is the last one pushed or passed on, exactly the ones passed on are delivered, and nothing is kept between transfers |
| Transfers.WorkerAssembles | entry/src/main/cpp/protocol/deskflow_client.cpp:728-794 | over all attempts of a worker on arbitrary octets the transfer and the deliveries depend on the clipboard messages parsed alone, across reconnections |
| EndToEnd.StartAcceptedUpToLimit | entry/src/main/cpp/protocol/deskflow_client.cpp:741-756 | the announced size is accepted if and only if it is at most 1 MiB |
| EndToEnd.UploadIsSendable | entry/src/main/cpp/protocol/deskflow_client.cpp:301-343 | every message of an upload fits the string limit of the reader and one frame |
| EndToEnd.UploadDelivers | entry/src/main/cpp/protocol/deskflow_client.cpp:301-343 | among any other messages, an uploaded text of at most 1,048,564 octets is delivered whole and once; a longer one is refused and nothing is delivered |
| EndToEnd.WorkerDelivers | entry/src/main/cpp/protocol/deskflow_client.cpp:383-480 | if the clipboard messages a worker parses in all its attempts are an upload, also one that goes on after a reconnection, exactly that text is delivered once up to the limit and nothing above it |
| EndToEnd.ClipboardAmongOthers | entry/src/main/cpp/protocol/deskflow_client.cpp:442-473 | on the wire, with any other messages between the frames of an upload and anything after them: as soon as the messages handled contain the whole upload, exactly that text is delivered up to the limit and nothing above it, whether the loop goes on or ends |
| EndToEnd.ClipboardEndToEnd | entry/src/main/cpp/protocol/deskflow_client.cpp:301-343 | the octets one client puts on the wire for a text, read by the loop of another with syncing on, deliver exactly that text up to the limit and nothing above it, and leave exactly what follows |
| Conversation.OtherVersionIsRefused | entry/src/main/cpp/protocol/deskflow_client.cpp:501-509 | a server of another major version, whatever it sends after its hello, gets no answer, and reconnecting is given up |
| Conversation.HelloReadsBack | entry/src/main/cpp/protocol/deskflow_client.cpp:482-515 | a server hello is read back with name and signed version numbers |
| Conversation.HelloBackReadsBack | entry/src/main/cpp/protocol/deskflow_client.cpp:511-521 | the answer decodes to the same seven name octets, version 1, the lower of both minor versions, and the screen name |
| Conversation.InfoReadsBack | entry/src/main/cpp/protocol/deskflow_client.cpp:528-536 | a server reads from the answer to its query the origin, the size of the screen and the pointer, in this order, each modulo 2^16 |
| Conversation.SaysWhatIsExpected | entry/src/main/cpp/protocol/deskflow_client.cpp:466-472 | however the loop ends: what is written is each answer of the messages before the first verdict, followed by a no-op once options have been set, or as much of it as the peer takes; the loop goes on if and only if there is no verdict and the peer takes it all |
| Conversation.VerdictsEndTheLoop | entry/src/main/cpp/protocol/deskflow_client.cpp:828-853 | CBYE, EICV, EBSY, EUNK and EBAD end the loop by themselves and no other message does |
| Conversation.PhaseFollowsOptions | entry/src/main/cpp/protocol/deskflow_client.cpp:718-727 | the running phase begins with DSOP and nothing else; reconnecting is given up by CBYE or EICV and nothing else |
| Conversation.ConversationIsAsExpected | entry/src/main/cpp/protocol/deskflow_client.cpp:414-523 | a whole connection, over any octets and any number of passages: without a hello of version 1 nothing is written; with one, exactly the hello back and the answers and no-ops expected of the messages parsed before the first verdict are written, or as much as the peer takes, and nothing else |
| Conversation.ConversationIsReadBack | entry/src/main/cpp/protocol/deskflow_client.cpp:414-523 | over any octets: what the peer has of it decodes, frame by frame, as exactly that, or is the prefix it took |
| Conversation.WellFormedConversation | entry/src/main/cpp/protocol/deskflow_client.cpp:414-523 | for well-formed messages, each in one frame, with anything after them: the client goes on after them if and only if none is a verdict and the peer took all replies; then exactly they have been handled and what follows is left to read |
| RunningPhase.WorkerPhaseFollowsOptions | entry/src/main/cpp/protocol/deskflow_client.cpp:718-727 | over all attempts of a worker on arbitrary octets: it is in the running phase if and only if it was before or an options message has been parsed in any attempt so far |
| RunningPhase.NoopBeforeOptions | entry/src/main/cpp/protocol/deskflow_client.cpp:466-472 | the concrete case: a second connection on which no options message arrives and a no-op is written all the same |
| Conversation.ConversationHandles | entry/src/main/cpp/protocol/deskflow_client.cpp:442-473 | the messages handled are those up to and including the first verdict or the first whose reply the peer does not take; none if that was the hello back |
| Verdicts.GoesOnExactlyUnlessFatal | entry/src/main/cpp/protocol/deskflow_client.cpp:383-411 | another attempt follows if and only if reconnection is on, no stop was requested, and the connection did not end with a hello of another version, CBYE or complete EICV |
| Verdicts.OtherVersionIsFinal | entry/src/main/cpp/protocol/deskflow_client.cpp:501-509 | after a hello of another version, told from its octets, the worker does not go on |
| Verdicts.StopIsReported | entry/src/main/cpp/protocol/deskflow_client.cpp:478-479 | a stop seen when the message loop is left is reported: no other attempt makes sense |
| Verdicts.FatalVerdictsAreFinal | entry/src/main/cpp/protocol/deskflow_client.cpp:383-411 | in a worker run only the last attempt can have ended fatally: raising the flag anew never revives a refused server |
| Lifecycle.AtMostOneWorker | entry/src/main/cpp/protocol/deskflow_client.cpp:220-239 | in every interleaving at most one worker is inside the connect loop, and the running flag is set exactly while a worker has not yet cleared it or is about to be made |
| Lifecycle.ConnectNeverRefused | entry/src/main/cpp/napi_init.cpp:211-231 | the start made after polling is never refused as already running |
| Lifecycle.StopIsKeptWhileLive | entry/src/main/cpp/protocol/deskflow_client.cpp:235-239 | a stop request is never cleared while a worker is still in its loop |
| Lifecycle.ScreenIsFixedWhileLive | entry/src/main/cpp/napi_init.cpp:218-229 | the size of the screen is only set while no worker is in its loop |
| Lifecycle.AtMostOneAttemptAfterStop | entry/src/main/cpp/protocol/deskflow_client.cpp:383-411 | after a stop, until a new start, at most one more connection attempt begins |
| Lifecycle.AtMostOneAttemptAfterStopCall | entry/src/main/cpp/protocol/deskflow_client.cpp:235-239 | the same from the call of stop() on |
| Lifecycle.StartIsNotLost | entry/src/main/cpp/protocol/deskflow_client.cpp:220-233 | the thread of a start is made with no stop requested; and connecting looks at most fifteen times for the old worker to be gone |
| Lifecycle.WaitsOnlyIfAllowed | entry/src/main/cpp/protocol/deskflow_client.cpp:393-395 | a worker waits for another attempt only with reconnecting on and no stop requested |
| Tray.StatusBarManager.RequestState | entry/src/main/ets/statusbar/StatusBarManager.ets:119-134 | the state is remembered; the timer is restarted only for an item in the bar |
| Tray.StatusBarManager.EndEntry | entry/src/main/ets/statusbar/StatusBarManager.ets:136-156 | gives up if the state has changed while the icons loaded; otherwise icon and menu are set for that state |
| Tray.StatusBarManager.EndAdd | entry/src/main/ets/statusbar/StatusBarManager.ets:72-98 | the item shows the icons of the state at the call and the menu of the state now |
| Tray.StatusBarManager.Remove | entry/src/main/ets/statusbar/StatusBarManager.ets:101-111 | an item in the bar is taken out unless the call throws; otherwise nothing happens |
| Tray.TrayConverges | entry/src/main/ets/statusbar/StatusBarManager.ets:113-156 | in every order of requests, timer firings and icon loads: each application used the state current at that instant, and once a request has been made on an item in the bar, whenever nothing is pending the last application used the state last requested |
| Tray.TrayShowsLastRequested | entry/src/main/ets/statusbar/StatusBarManager.ets:113-156 | with loads and calls succeeding, once a request has been made on an item in the bar, what is shown whenever nothing is pending is the state last requested, icon and menu alike |
| Tray.CanSettle | entry/src/main/ets/statusbar/StatusBarManager.ets:128-134 | from every reachable state the timer and the chain alone lead to one with nothing pending |
| Tray.UpdatesAreMerged | entry/src/main/ets/statusbar/StatusBarManager.ets:118-134 | the bar is updated at most once for each firing of the timer, which fires at most once for each request |
| Tray.FailedPartsStay | entry/src/main/ets/statusbar/StatusBarManager.ets:143-154 | an icon or menu that does not get through leaves what is shown |
| Tray.AddCanBeRetried | entry/src/main/ets/statusbar/StatusBarManager.ets:72-80 | after an add() whose icons could not be loaded another can begin |
| Tray.IconAndMenuAgree | entry/src/main/ets/statusbar/StatusBarManager.ets:72-156 | in every order of events with everything getting through: icon and menu agree if and only if an update has been applied since the item was added or the requests left the state as it was while its icons were loading |
| Tray.AddCanDisagree | entry/src/main/ets/statusbar/StatusBarManager.ets:72-122 | a concrete order of events that leaves icon and menu different with nothing pending |
| MouseTrail.Trail | entry/src/main/cpp/napi_init.cpp:714-738 | injects the interpolated points in order, ends at the target, and reports the total, the maximum and the number of refusals |
| MouseTrail.TrailStaysBetween | entry/src/main/cpp/napi_init.cpp:720-726 | every point lies between start and end on each axis |
| MouseTrail.TrailIsMonotone | entry/src/main/cpp/napi_init.cpp:720-726 | each coordinate moves toward the end and never back |
| MouseTrail.TrailEnds | entry/src/main/cpp/napi_init.cpp:720-726 | the trail starts at the start and its last point is exactly the end |
| MouseTrail.EasedSlowsDown | entry/src/main/cpp/napi_init.cpp:721-724 | the unrounded steps get strictly shorter: fast at first, slow toward the end |
| MouseTrail.EaseIsQuadratic | entry/src/main/cpp/napi_init.cpp:722-723 | what is left of the way shrinks with the square of the steps left |
| MouseTrail.CoordinateIsRounded | entry/src/main/cpp/napi_init.cpp:724-725 | each coordinate is the exact point of the way, rounded toward the start by less than one |

## Left out

- Connecting, name lookup, error numbers and timing: a connection is refused or accepted with the octets that
  will arrive and the room the peer has. A receive error, or a close by `stop()`, is the end of those octets.
- Interruptions (EINTR) come finitely often.
- Sockets.SocketStream.Connect: stands for the outcome of connecting only.
- ProtoUtil.Readf: returns the values instead of writing them through pointers; on failure the values already
  stored in some destinations are not modelled (every caller discards them).
- ProtoUtil.Writef: formats ending inside a directive are excluded, since the scan then runs past the
  terminator; argument lists of other types than the format asks for are excluded too.
- Client.DeskflowClient.InjectMouseMove: the map of held buttons is walked as the ids 1 to 3 in ascending
  order, which is the order of its keys.
- Creation of an event always succeeds; a key event is recorded as an attempt, whether the keysym is mapped
  and whether the system accepts it or not. The table from keysyms to key codes is not modelled.
- Client.DeskflowClient.Run: the connections on offer are a finite list; when it is used up the run ends.
- Client.DeskflowClient.Start: the thread itself is not made here; threads are in Lifecycle.
- Client.DeskflowClient.SendClipboard: a frame is written in one step. The code has no lock against the worker
  writing to the same socket, and nothing is claimed about frames written at the same time.
- Lifecycle: one caller thread, as the JS thread is; what a connection does inside is in Client.
- Pointing.RelMoveCannotOverflow: 32-bit overflow of the pointer is excluded for screens up to
  2^31 - 2^15 points; larger ones would wrap in the code and do not in the model.
- Coordinates of wheel events are not clamped in the code, and nothing is claimed of them.
- EndToEnd.ClipboardEndToEnd: texts of 2^64 - 12 octets and more are excluded.
- Frames with missing or surplus octets: the parsers terminate and the invariants of runs hold, but no claim is
  made that later frames are still aligned.
- Tray.StatusBarManager.BeginAdd: a second `add()` while the icons of the first are loading is not modelled.
- The tray item without an application context (every call then returns at once) is not modelled.
- MouseTrail.Trail: exact real arithmetic instead of `double`, 32-bit overflow of the differences and the
  pause between points are not modelled; the average that is only printed is left out.
- Status texts, logging, authorisation requests, the interceptor, NAPI marshalling, preferences, pages and
  abilities, icon and menu contents.
