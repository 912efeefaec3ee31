# psbox: what its protocols and plans keep

psbox runs applications in sandboxes and stands between them and the host: on
the D-Bus session bus, on the Wayland connection of X11 applications, in the
mount tree, and in desktop entries. This project models the parts of it whose
correctness depends on many functions, or many threads, agreeing, and proves
what they promise. `dafny verify dfyconfig.toml` checks all of it.

| files | what they model |
|---|---|
| `DBusSignature`, `DBusValue`, `DBusWriter`, `DBusReader`, `DBusBody` | The D-Bus Specification's sections "Type System" and "Marshaling (Wire Format)": signatures, the offset-aligned writer with back-patched array lengths, and the depth-bounded reader for both byte orders |
| `DBusRoundTrip`, `DBusSoundness` | Decoding undoes encoding at every offset; what decodes is well formed and exactly as long as its encoding |
| `DBusGrammar`, `DBusWire`, `DBusWireReading` | Which signatures and texts are accepted, and which bytes stand for a value, said with the specification's own characters, widths and boundaries; the writer and the reader do exactly that |
| `DBusMessage`, `DBusMessageIO`, `DBusMessageTheorems`, `DBusMessageWire` | The section "Message Format": header framing, parsing and encoding, and messages byte by byte |
| `DBusConn`, `DBusReassembly` | Messages and descriptors put together from chunks, and calls waiting for replies |
| `Gateway*` | The D-Bus gateway's two threads per client, as a state machine whose steps are what one thread does under one lock |
| `WaylandWire`, `WaylandRoundTrip`, `WaylandBytes`, `WaylandSocket`, `WaylandRuns` | The section "Wire Format" of the Wayland protocol's chapter "Wayland Protocol and Model of Operation", and the queue of partial writes that carries descriptors |
| `WaylandHistory`, `WaylandObjects`, `WaylandProxy`, `WaylandTable`, `WaylandForwarded` | The table that translates object ids between the bridge and the compositor, and what goes from one side to the other |
| `WaylandFocus`, `WaylandInput` | Which input events go on to the bridge |
| `Mounts`, `Reload`, `PlanDiff`, `ReloadPlans`, `ReloadRuns`, `PlanBuild`, `PlanPlaces`, `PlanShows` | A running sandbox's mounts, moved from one plan to another, and the plans that are built |
| `VisiblePaths` | Host paths as the sandbox sees them |
| `DeviceNames`, `Supervisor` | Device nodes published into `/dev`, and reloads with steps that fail |
| `DesktopExec`, `DesktopWords`, `DesktopEntry`, `DesktopRewrites` | The Desktop Entry Specification's section "The Exec key", and the rewrite of entries in place |

What the code's functions share (an alignment, a table of codes, a link's
target, a test) is also described without them, in literal numbers, names and
bytes, and proved to be that: a wrong one that two functions agree on does not
go unnoticed.

Where the program changes an object step by step, a class with the same fields
and methods is proved against functions on values, and the theorems are about
those functions. The mount at a path is the last attached one whose
destination is on the way to it; detaching takes the mount that shows at a
path with whatever was attached on it.

## What the proofs found

- A D-Bus value survives encoding and decoding exactly when it is well formed
  (`Bodies.RoundTripsExactly`). An array whose element type is that of a dict
  entry, or an empty struct, encodes to something that does not decode to it.
- The Wayland writer pads to a multiple of 4 of the whole output buffer, so a
  message parses back exactly when the buffer's length was such a multiple or
  nothing in the message is padded (`WaylandRoundTrip.WriteThenParse`). After a
  partial write the length need not be one, and the next message with a string
  is malformed for its receiver (`WaylandSocket.PartialWriteMisaligns`).
- A reload detaches what it should exactly when no mount left in place comes
  after a moved one, at or above it, and then shows what the new plan would
  exactly when two conditions on the order hold
  (`ReloadPlans.ScriptShowsTheSame`). Between plans in which no mount is at or
  above an earlier one neither goes wrong, over any number of reloads
  (`ReloadRuns.ReloadsTrack`), also when optional mounts without a source are
  left out (`ReloadRuns.ReloadFollows`, `Supervisor.Sandbox.Apply`). A built
  plan is one if and only if psbox's own mounts are and the shares keep clear
  of them and of the X11 socket directory (`PlanBuild.BuiltIsLayered`); and
  psbox's own are if and only if the home and the compositor's socket keep
  clear of the others, as an ordinary home does (`PlanPlaces.OwnAreLayered`,
  `PlanPlaces.OrdinaryPlansReload`). A share over one of psbox's own
  mounts can go wrong. With a share in place of the PipeWire socket, turning
  the audio class off detaches the share, and the socket that should be gone
  shows (`PlanBuild.SamePlaceGoesWrong`). And a mount of psbox's own that
  becomes a share, the same mount, moves behind other shares in the plan,
  which is not noticed: under an empty share of the runtime directory, sound
  sockets that should show stay hidden (`PlanBuild.OrderGoesUnnoticed`).
- A client that leaves can leave its host connection open in one way: a
  held call that closes its last request and asks for no reply was taken up
  before the client left, and closes the request after the Portal reader found
  it open (`GatewayDepartures.StrandsExactly`, `TakenUpWhileKnown`,
  `AClientIsStranded`). The connection then stays until the next signal of an
  owner of the gateway's names that is passed on, or change of the portal's
  owner: once the host thread has received that, it waits again only with the
  connection closed, whatever other threads do meanwhile (`ClosesMeanwhile`),
  and left alone it gets there (`NextSignalCloses`, `NextOwnerCloses`). In the
  run given, the portal instance that lost the portal's name still answers a
  call from before.
- Two desktop entry sections of one name, which nothing rejects, are rewritten
  twice, so that the launch runs psbox through psbox
  (`DesktopEntries.SharedNamesAreRewrittenTwice`). As long as none of the words
  psbox adds is among those to remove, a section keeps the promise exactly when
  it has no `Exec` or shares its name with no other
  (`DesktopRewrites.RewritesExactly`).

## Model

| member | source | states |
|---|---|---|
| Signatures.TypeLenPrefix | src/dbus/value.rs:145-177 | A complete type is recognised by its own characters, whatever follows it |
| Signatures.TypeLenShallower | src/dbus/value.rs:145-177 | A type accepted at some depth is accepted, with the same length, at every lesser one |
| Signatures.SplitConcat | src/dbus/value.rs:134-143 | Splitting a concatenation of complete types gives exactly those types |
| Signatures.EntryHalves | src/dbus/value.rs:166-173 | A dict entry type is a key type and a value type, each complete |
| Grammar.CompleteExactly | src/dbus/value.rs:145-177 | A text is one complete type from some depth on if and only if it spells a type built of basic ones, arrays, structs with fields and dict entries that nests to 64 at most |
| Grammar.SplitsExactly | src/dbus/value.rs:134-143 | A signature is accepted if and only if it spells a list of types |
| Grammar.Utf8Exactly | src/dbus/value.rs:255-261 | A text is accepted if and only if it is Unicode scalar values in UTF-8 |
| Readers.CompleteTypeLen | src/dbus/value.rs:145-177 | Finds the end of the first complete type, or the grammar's error, for every text and depth |
| Readers.Split | src/dbus/value.rs:134-143 | Splits a signature into its complete types, or gives the first error |
| Readers.Reader.Align | src/dbus/value.rs:209-216 | Moves to the next multiple, or fails when the buffer ends before it |
| Readers.Reader.TakeBytes | src/dbus/value.rs:218-225 | Takes the next bytes and moves past them, or fails |
| Readers.Reader.Text | src/dbus/value.rs:255-261 | Reads a NUL-terminated UTF-8 text, each fault its own error |
| Readers.Reader.ReadDepth | src/dbus/value.rs:268-351 | Reads the value of a type from the reader's position in either byte order, moving exactly past it, within the depth limit |
| Readers.Reader.Read | src/dbus/value.rs:264-266 | The same from depth 0 |
| Readers.Decode | src/dbus/value.rs:430-440 | Decodes a body, all of it, as its signature says |
| Writers.Writer.Align | src/dbus/value.rs:361-365 | Pads one zero byte at a time to the shortest multiple |
| Writers.Writer.PutU32 | src/dbus/value.rs:367-370 | Appends an aligned 32-bit integer, little-endian |
| Writers.Writer.PutString | src/dbus/value.rs:372-376 | Appends length, text and NUL |
| Writers.Writer.PutSignature | src/dbus/value.rs:378-382 | Appends a length byte, the text and NUL |
| Writers.Writer.Write | src/dbus/value.rs:384-426 | Appends exactly a value's encoding at the offset the buffer has reached |
| Writers.Writer.WriteArray | src/dbus/value.rs:404-413 | Appends an array whose length is filled in after its elements: the bytes of the elements, without the padding before the first |
| Writers.Writer.WriteDict | src/dbus/value.rs:414-424 | The same for a dict, each entry aligned to 8 |
| WireFormat.MarshalsExactly | src/dbus/value.rs:179-426 | What is written for a value at any offset, in either order, is the one run of bytes that stands for it: zeros up to its boundary of 1, 2, 4 or 8, then its content by the specification's widths, lengths and terminators |
| WireReading.ReadsExactly | src/dbus/value.rs:179-351 | A type is read at an offset as a value that ends there if and only if the value is of that type and well formed and the bytes between stand for it, with any bytes for padding |
| CodecRoundTrip.ValueRoundTrip | src/dbus/value.rs:268-426 | A well-formed value written at any offset, in either byte order and whatever surrounds it, is read back, and reading ends where it ends |
| CodecSoundness.ReadIsSound | src/dbus/value.rs:268-351 | A value read has exactly the type it was read as, is well formed, and takes exactly as many bytes as its encoding there in either order |
| Bodies.BodyRoundTrip | src/dbus/value.rs:430-447 | Decoding an encoded body gives the values back, in either byte order |
| Bodies.DecodedBodyIsExact | src/dbus/value.rs:430-447 | The values of a body that decodes have exactly its signature and encode to its length |
| Bodies.ReencodedBodyDecodes | src/dbus/message.rs:139-147 | Encoding what was decoded gives a little-endian body of the same length and values |
| Bodies.RoundTripsExactly | src/dbus/value.rs:430-447 | A list of values survives encoding and decoding if and only if every one is well formed |
| MessageWire.DecodesExactly | src/dbus/value.rs:430-440 | A body decodes as some values if and only if they are well formed, of its signature, and its bytes stand for them |
| MessageWire.EncodesExactly | src/dbus/value.rs:443-447 | A body is encoded as its values' spelled types and the one run of bytes that stands for them |
| Messages.Pad8IsPadding | src/dbus/message.rs:46-48 | Rounding up to 8 is the padding of the alignment |
| Messages.FrameCoversHeader | src/dbus/message.rs:70-79 | A buffer that is one frame is the prefix and header fields, rounded up to 8, and the body, by the lengths its first 16 bytes give |
| MessageIO.EncodeWith | src/dbus/message.rs:204-240 | Encodes a message with the writer: the prefix, the fields that are present in order, padding and body |
| MessageIO.ParseHeaderOf | src/dbus/message.rs:151-200 | Parses the header of one complete message, each fault its own error |
| MessageIO.ParseOf | src/dbus/message.rs:139-147 | Parses a message whose body decodes, in little-endian form |
| MessageWire.WrittenExactly | src/dbus/message.rs:204-240 | Bytes are what is written for a message if and only if they are its prefix byte by byte, a header field for each part there is with its code from 1 to 9 in order and none for the sender, zeros up to a multiple of 8, and the body |
| MessageWire.ParsesExactly | src/dbus/message.rs:46-200 | A header is parsed from bytes if and only if they are laid out so, in the order the first byte tells, and of header fields with one code and its type the last counts |
| MessageTheorems.EncodedFrameLen | src/dbus/message.rs:70-79 | The first 16 bytes of an encoded message tell its whole length |
| MessageTheorems.EncodedHeader | src/dbus/message.rs:151-240 | The header of an encoded message parses to the message, its serial set, its sender absent, its body byte for byte |
| MessageTheorems.MessageRoundTrip | src/dbus/message.rs:139-240 | Parsing an encoded message gives it back if and only if its body matches its signature |
| MessageTheorems.ParsedArgumentsDecode | src/dbus/message.rs:139-147 | Every message accepted, in either order, has arguments of exactly its signature; a big-endian body became a little-endian one of the same length and arguments |
| Connections.Conn.RecvMsg | src/dbus/conn.rs:386-430 | One receive appends its bytes and descriptors |
| Connections.Conn.ReadNext | src/dbus/conn.rs:188-228 | Reads the next message from what was received, receiving more as needed |
| Connections.Conn.TakeFrame | src/dbus/conn.rs:197-221 | Takes one message with the descriptors its header counts, even when its body does not decode |
| Connections.Conn.Recv | src/dbus/conn.rs:179-185 | Gives kept messages first |
| Connections.Conn.AwaitReply | src/dbus/conn.rs:240-273 | Waits for the reply to a serial, keeping the bus's own messages and dropping others |
| Connections.Conn.Call | src/dbus/conn.rs:240-273 | Waits for the reply to a serial, and makes an error reply a failure with its name and text |
| Connections.FailsExactly | src/dbus/conn.rs:240-273 | A call succeeds if and only if what its waiting loop ends with is a reply to its serial and no error, and gives that reply |
| Connections.ReadOneShrinks | src/dbus/conn.rs:188-228 | Every message read leaves less to read |
| Reassembly.ReadsFirst | src/dbus/conn.rs:188-228 | The first message of a stream and its descriptors are read, and the rest is untouched |
| Reassembly.ReassemblesEverything | src/dbus/conn.rs:188-228 | However a stream of messages is cut into chunks, reading gives exactly those messages in order, each with exactly its descriptors; one that does not decode costs only itself |
| Reassembly.SentArrives | src/dbus/conn.rs:162-228 | A message sent arrives as itself when its body matches its signature, and else is reported with its header |
| Reassembly.UndecodableArrives | src/dbus/conn.rs:208-221 | A message whose body does not decode arrives as its header, every part of it but the signature, with what is wrong |
| Reassembly.CallKeepsBusMessages | src/dbus/conn.rs:240-273 | A waiting call answers with the first message that replies to it, keeps of those before it exactly the ones that decode and are from `org.freedesktop.DBus`, in order and with their descriptors, and leaves those after |
| Reassembly.CallSucceedsExactly | src/dbus/conn.rs:240-273 | Whatever messages a stream carries, a call succeeds if and only if one of them replies to its serial and the first that does decodes and is no error, and gives that message with its descriptors |
| Reassembly.CallTellsError | src/dbus/conn.rs:259-270 | When the first reply is an error, the call fails with its name, or `error`, and the text its arguments begin with |
| Reassembly.MissingDescriptorsFail | src/dbus/conn.rs:203-207 | A whole message fails if and only if fewer descriptors have come than its header counts |
| Reassembly.CutShort | src/dbus/conn.rs:188-228 | With less than a whole message, reading fails as the stream ends: nothing to receive, nothing received, or a failure |
| GatewayOrder.PortalCallsInOrder | src/gateway.rs:287-543 | In every interleaving the portal calls handled are the first ones read, in order and once each; the others are with a thread or held; calls are held only while a registration or a drain is outstanding |
| GatewayOrder.StepOrdered | src/gateway.rs:287-543 | Every step of either thread keeps that order |
| GatewayIdentity.PortalCallsGoToTheAcceptor | src/gateway.rs:292-415 | Every portal call sent while the client has an identity is addressed to the unique name that accepted its latest registration, and every other to the portal's name |
| GatewayIdentity.StepIdentified | src/gateway.rs:292-510 | Every step keeps that |
| GatewayOwners.AsksExactly | src/gateway.rs:292-316 | A thread is given a unique name exactly when that owns the portal's name at that step and accepted the client, and the portal's name when the client has no identity; with an identity and any other owner, or none, it registers and the call is held or given back |
| GatewayOwners.DestinationsOwnedThePortal | src/gateway.rs:292-415 | In every interleaving, a call sent to a unique name was bound for it by a thread that asked while that name owned the portal's and had accepted the client |
| GatewayOwners.StandingChanges | src/gateway.rs:425-596 | Who owns the portal's name changes only as the bus tells it; who accepted the client, its identity and its registration only as a reply to a registration does, or by asking for one |
| GatewayOwners.RefusalIsFinal | src/gateway.rs:425-510 | Once the portal refuses a client, it is not asked again and calls go to the portal's name |
| GatewayRequests.OpenExactly | src/gateway.rs:362-732 | In every interleaving a request is open if and only if a reply to an OpenURI call that succeeded named it, and since then no call closed it, no response came, and neither the portal nor the connection went |
| GatewayRequests.RepliesWereReceived | src/gateway.rs:556-615 | A reply counts as a success only when it was received as one and could be decoded |
| GatewayRequests.GoneTakesNone | src/gateway.rs:262-289 | Once a client is out of the map, no call of its is read and none of those held goes past its lookup |
| GatewayCalls.SentAsRead | src/gateway.rs:287-384 | In every interleaving, every call sent was read so on the connection it came in on, with its serial and asking for a reply or not |
| GatewayCalls.ConnectionChanges | src/gateway.rs:131-137 | A connection is shut down only by a thread that finds the client gone, no request open and no OpenURI call waiting, then always, and at the end |
| GatewayCalls.ConnectionIsWhatHappened | src/gateway.rs:262-278 | In every interleaving a client is known until it is forgotten, gone once it has left, and its connection broken once the other end broke it |
| GatewayAnswers.AnsweredOnce | src/gateway.rs:371-384 | A call is answered only if it was sent and asks for a reply, at most once, on the connection it came in on and with the caller's serial |
| GatewayAnswers.NoReplyOvertakes | src/gateway.rs:370-384 | When the host thread may look for the record of a reply, it is there if and only if the call is not over |
| GatewayAnswers.EndAnswersAll | src/gateway.rs:566-575 | Once the host connection has ended, every call sent that asks for a reply has been answered, unless the client was gone |
| GatewayAnswers.StepSound | src/gateway.rs:371-678 | Every step keeps each call that waits for a reply in one place: sent and not yet recorded, pending, or taken by the host thread |
| GatewayDepartures.ShutOnlyWhenDone | src/gateway.rs:131-137 | While its other end keeps the connection open, the gateway shuts it down only for a client that has left, with no OpenURI call waiting and no request open |
| GatewayDepartures.StrandsExactly | src/gateway.rs:614-732 | A step strands a departed client if and only if the host thread, passing on a held call, closes the client's last request with one that asks for no reply; a run without such a step strands none |
| GatewayDepartures.TakenUpWhileKnown | src/gateway.rs:287-289 | A held call that is being passed on was taken up while its client was still known, and the host thread has had it since |
| GatewayDepartures.NextSignalCloses | src/gateway.rs:709-732 | With the host thread waiting, the lock free and no other thread at work, the next signal of an owner leads to the closing of a stranded client's connection |
| GatewayDepartures.NextOwnerCloses | src/gateway.rs:584-596 | In that one schedule, so does the next change of the portal's owner |
| GatewayDepartures.ClosesMeanwhile | src/gateway.rs:584-732 | In every interleaving, once the host thread has received one of the two for a stranded client, it waits for a message again only with the connection shut down |
| GatewayDepartures.AClientIsStranded | src/gateway.rs:362-369 | A run that does strand one: the client leaves between the lookup of a held call and its closing of the request |
| WaylandRoundTrip.WriteThenParse | src/decorations/wire.rs:35-138 | A message that matches its signature parses back, following bytes and descriptors untouched, if and only if it was written at a multiple of 4 or holds nothing padded |
| WaylandRoundTrip.PrefixIsIncomplete | src/decorations/wire.rs:35-65 | Less than a whole message yields none and takes no descriptor |
| WaylandBytes.WritesExactly | src/decorations/wire.rs:108-138 | What is written for a message is its sender, its size and opcode in one word, and its arguments, strings and arrays with their length and zeros up to a multiple of 4 of the buffer; it is refused when over 65535 bytes |
| WaylandBytes.ParsesExactly | src/decorations/wire.rs:35-105 | A buffer holds a message if and only if its first bytes tell its size and it is all there, its sender has such a request, and its arguments and descriptors are of that request's types |
| WaylandBytes.WaitsExactly | src/decorations/wire.rs:40-53 | There is none yet if and only if its header or the size that tells has not all come |
| WaylandSocket.WriteOf | src/decorations/wire.rs:108-138 | Appends a message with its header filled in last, or takes it back when it is too large |
| WaylandSocket.ParseOf | src/decorations/wire.rs:35-85 | Parses the message at the start of the buffer, each fault its own error |
| WaylandSocket.Socket.Next | src/decorations/wire.rs:185-194 | Takes the next complete message and its descriptors |
| WaylandSocket.Socket.Send | src/decorations/wire.rs:197-203 | Queues a message with its descriptors at its offset, or nothing when it is too large |
| WaylandSocket.Socket.Flush | src/decorations/wire.rs:211-242 | Writes batches as the kernel takes them, keeping everything queued in order |
| WaylandSocket.Socket.CutBatch | src/decorations/wire.rs:216-222 | Steps back to where a message's descriptors begin |
| WaylandSocket.BatchFits | src/decorations/wire.rs:213-230 | A batch that is not refused has bytes to send and leaves every descriptor it does not take at or past its end |
| WaylandSocket.RefusedExactly | src/decorations/wire.rs:216-226 | A batch is refused if and only if one message alone has more descriptors than one write carries |
| WaylandSocket.PartialWriteMisaligns | src/decorations/wire.rs:108-123 | After a partial write, a message with a string can be malformed |
| WaylandRuns.FlushTakes | src/decorations/wire.rs:211-242 | A flush loses, repeats and reorders nothing, and refuses only a message that alone has too many descriptors |
| WaylandRuns.RunConserves | src/decorations/wire.rs:197-242 | Over any run of sends and flushes, every byte and descriptor goes out once and in order or still waits; no write is empty or carries too many descriptors; none goes out after its message's first byte |
| WaylandHistory.EventsReachTheirObject | src/decorations/proxy.rs:922-930 | An event goes only to the bridge's object made with its sender, while the id is that object's, however often the id was freed and used again |
| WaylandHistory.DeletesBalance | src/decorations/proxy.rs:371-386 | The bridge is told exactly once of each id it made that is free again, and never of one the proxy made, which is made once |
| WaylandObjects.Distinct | src/decorations/proxy.rs:922-995 | No two of the bridge's objects stand for one of the compositor's |
| WaylandProxy.RequestSound | src/decorations/proxy.rs:405-667 | Every request keeps the table sound |
| WaylandProxy.EventSound | src/decorations/proxy.rs:922-988 | Every event keeps the table sound |
| WaylandProxy.NamesTranslateBack | src/decorations/proxy.rs:991-995 | An id translates to an object of the compositor's if and only if that translates back to it |
| WaylandProxy.ArgumentsTranslateBack | src/decorations/proxy.rs:567-619 | Every argument of a request that is sent, as an event would give it back, is the bridge's own, but for the ids of new objects |
| WaylandProxy.RunsAreSound | src/decorations/proxy.rs:371-995 | In every reachable state the table maps ids to live objects with events for that id, and is what the history of ids makes it |
| WaylandProxy.RunsReachTheirObjects | src/decorations/proxy.rs:922-930 | In every run, an event reaches only the bridge's object made with its sender, even after the id was freed and used again |
| WaylandProxy.RunsBalance | src/decorations/proxy.rs:371-386 | In every run, the bridge was told once of each id it made that is no longer in the table, and never of one the proxy made |
| WaylandForwarded.ForwardsExactly | src/decorations/proxy.rs:553-667 | A request is refused if and only if some argument is not a null, object or id it may be; it goes on if and only if the connection takes it and neither its object nor one it names is gone, on its own object with its opcode and each argument translated; and it makes and destroys what the protocol says |
| WaylandForwarded.DisplaysExactly | src/decorations/proxy.rs:432-475 | The display's requests go on, and a registry of a decorating proxy begins with its own global |
| WaylandForwarded.BindsExactly | src/decorations/proxy.rs:478-550 | A bind is accepted if and only if it names what was offered in a version from 1 to that told, or the proxy's own in version 1; only the former goes on, as it is |
| WaylandForwarded.ManagesExactly | src/decorations/proxy.rs:1190-1215 | The proxy's decoration manager makes decorations for toplevels or goes, and sends nothing on |
| WaylandForwarded.DecoratesExactly | src/decorations/proxy.rs:1217-1246 | A decoration answers with the client's mode when that is asked for or no frame can be drawn, and else the server's |
| WaylandForwarded.TooNewExactly | src/decorations/proxy.rs:405-428 | A request is too new if and only if its object's version does not have it |
| WaylandForwarded.EventsExactly | src/decorations/proxy.rs:922-995 | An event reaches the bridge if and only if its sender stands behind one of its objects and it passes, on that object, with its opcode and each argument translated, then with `delete_id` when it destroys its sender; any other leaves the bridge alone |
| WaylandForwarded.RequestsGoOnInOrder | src/decorations/proxy.rs:405-667 | In every run, what the compositor was sent for the bridge is exactly the bridge's requests that go on, in order, each on its object, with its opcode and its arguments translated |
| WaylandTable.Proxy.CheckNewId | src/decorations/proxy.rs:381-386 | A new id is neither 0, nor the proxy's, nor in use |
| WaylandTable.Proxy.RemoveObject | src/decorations/proxy.rs:371-379 | Takes an id out and, when the bridge made it, sends one `delete_id` |
| WaylandTable.Proxy.Request | src/decorations/proxy.rs:405-428 | Handles a request as its object's kind says, changing nothing on an error |
| WaylandTable.Proxy.DisplayRequest | src/decorations/proxy.rs:432-475 | Makes the object on both connections, and offers the decoration manager on a registry |
| WaylandTable.Proxy.Bind | src/decorations/proxy.rs:478-550 | Binds only what was offered, up to the version told |
| WaylandTable.Proxy.ForwardRequest | src/decorations/proxy.rs:553-667 | Forwards a request with ids translated, or drops it with what it would make when an object is gone |
| WaylandTable.Proxy.TranslateArgs | src/decorations/proxy.rs:567-619 | Translates arguments in order, with the first fault's error |
| WaylandTable.Proxy.ManagerRequest | src/decorations/proxy.rs:1190-1215 | Makes decorations for toplevels only |
| WaylandTable.Proxy.DecorationRequest | src/decorations/proxy.rs:1217-1246 | Answers with the mode in effect |
| WaylandTable.Proxy.Event | src/decorations/proxy.rs:922-988 | Forwards an event when its sender is the object's, making the object it creates and freeing the one it destroys |
| WaylandTable.Proxy.Named | src/decorations/proxy.rs:991-995 | Gives the bridge's id for an object, none for the proxy's own |
| WaylandFocus.Focus.Pass | src/decorations/proxy.rs:160-199 | Answers and remembers as the filter does |
| WaylandFocus.ForwardedConforms | src/decorations/proxy.rs:160-199 | When the events that come conform to the protocol, so do those that pass: enters and leaves alternate, motion comes within a focus or touch, and a frame ends something |
| WaylandFocus.PassesExactly | src/decorations/proxy.rs:160-199 | An event passes if and only if it is on no hidden surface, told from the events alone; a frame if and only if something passed since the last |
| WaylandInput.TouchPassesExactly | src/decorations/proxy.rs:168-184 | A touch is kept from the bridge from when it goes down on a hidden surface until it is lifted or all are cancelled, by the ids of the protocol's events |
| WaylandInput.FocusPassesExactly | src/decorations/proxy.rs:162-199 | For the other interfaces, exactly the events about the focused surface are kept while that is hidden, and of the rest those that name a hidden object |
| Reload.DetachesExactly | src/supervisor.rs:1112-1126 | Detaching the moved mounts, last first, succeeds and leaves exactly the others if and only if none of those is over a moved one |
| Reload.ShowsTheSame | src/plan.rs:769-798 | Then every path shows what the new plan would if and only if the moved mounts show there and nested ones left in place keep their order |
| PlanDiff.Diff | src/plan.rs:734-827 | Gives no reason to restart if and only if no setting differs and every moved mount can move live; then the detach and attach lists; else each reason once, mounts only where no other reason stands for them |
| PlanDiff.Divide | src/plan.rs:778-798 | Of the mounts to move, those that can, in order, and the others as reasons |
| PlanDiff.Report | src/plan.rs:799-822 | Leaves out mounts other reasons stand for, and repeats; leaves none only when there was none |
| PlanShows.MovesExactly | src/plan.rs:766-798 | A mount moves if and only if one plan lacks it or it is beneath the place of such a mount |
| PlanShows.RestartsExactly | src/plan.rs:734-798 | A change needs a restart if and only if one of the named settings differs or a mount that moves is none that can change live |
| PlanShows.ReportsExactly | src/plan.rs:799-818 | Which mounts another reason stands for, by the paths of Xwayland, the network, links and buses, and the home |
| PlanShows.InOrder | src/plan.rs:788-798 | Moved mounts are attached in the order of their plan |
| PlanShows.OutBackwards | src/plan.rs:776-787 | And detached in the reverse of it |
| ReloadPlans.ScriptShowsTheSame | src/plan.rs:769-798 | Both conditions above, for the lists the comparison gives |
| ReloadPlans.LayeredPlansReload | src/plan.rs:769-798 | Between plans in which no mount is at or above an earlier one, the script never goes wrong |
| ReloadPlans.SharesAreLayered | src/plan.rs:1106-1108 | Shares with destinations of their own, sorted by depth, are such a plan, with none lost |
| PlanBuild.BuildMounts | src/plan.rs:916-1115 | Lists psbox's own mounts, the shares by depth, and the X11 socket directory |
| PlanShows.BuiltShowsExactly | src/plan.rs:916-1115 | The mounts of a layered built plan are exactly psbox's own for the spec's settings, named one by one, the shares as they are asked for and the X11 socket directory, and each shows at its place |
| PlanShows.SharesShow | src/plan.rs:1017-1051 | In such a plan a share shows at its place as its mode asks: its source read-only, writable or overlaid, or an empty directory |
| PlanShows.SettingsRestart | src/plan.rs:734-760 | Names to talk to need a restart only behind the portal, links only with a bus, and the scale only with psbox's own Xwayland on a display |
| PlanBuild.BuiltIsLayered | src/plan.rs:916-1115 | In a built plan no mount is at or above an earlier one if and only if that is so of psbox's own mounts, no share is at or above one of them, and nothing is at or beneath the X11 socket directory |
| PlanPlaces.OwnAreLayered | src/plan.rs:922-1105 | With the runtime directory where it is by default, psbox's own mounts, whatever the sandbox has, are such a list if and only if the home is not at or above one before it nor at or beneath one after it, and the compositor's socket does not have the name of one after it |
| PlanPlaces.OrdinaryIsClear | src/plan.rs:993-1015 | A home outside `/run` and `/var/lib/dbus` that is not at or above a mount every sandbox has, nor `/etc/resolv.conf`, is clear of psbox's own mounts whatever the sandbox has |
| PlanBuild.BuiltPlansReload | src/plan.rs:769-798 | Between plans built so the script never goes wrong |
| PlanPlaces.OrdinaryPlansReload | src/plan.rs:769-798 | With such a home, shares placed clear of psbox's own mounts and a compositor's socket of a name of its own, the script never goes wrong |
| PlanBuild.SamePlaceGoesWrong | src/plan.rs:769-798 | Turning the audio class off under a share in place of the PipeWire socket needs no restart, and leaves the socket showing instead of the share |
| PlanBuild.OrderGoesUnnoticed | src/plan.rs:769-798 | Between two built plans with the same mounts in another order nothing moves, and the sandbox does not show what the new plan does |
| ReloadRuns.ReloadFollows | src/supervisor.rs:1081-1134 | When the sandbox lacks mounts of such a plan, every detach of one it has succeeds, and it ends with the moved mounts of the new plan but those skipped, and the ones left in place that it had |
| ReloadRuns.ReloadTracks | src/supervisor.rs:1081-1134 | A reload between such plans ends with the new plan's mounts, whatever order the sandbox had the old ones in |
| ReloadRuns.ReloadsTrack | src/supervisor.rs:1081-1134 | Over any run of reloads between such plans the sandbox always shows what its plan would |
| Mounts.VisibleExactly | src/plan.rs:764-766 | At a path shows the last mount on the way to it, and none only when there is none |
| Mounts.DetachExactly | src/plan.rs:764-766 | Detaching takes the mount that shows at a path, if mounted just there, with what is attached beneath it, and nothing else |
| VisiblePaths.TopIsExact | src/supervisor.rs:1818-1827 | A mount is taken for what the sandbox sees at a path if and only if it shows there under every attach order the list allows |
| VisiblePaths.AnswersExactly | src/supervisor.rs:1817-1839 | A path is answered if and only if some writable bind of the host path shows it under every such order; it is one of the deepest source, the last of those |
| VisiblePaths.MappedShowsHost | src/supervisor.rs:1831-1834 | The answer is the host path, from source to destination |
| DeviceNames.HiddenDiffer | src/devices.rs:326-328 | No two devices have one hidden name |
| DeviceNames.TargetsDiffer | src/devices.rs:245-248 | Links of one name to different nodes differ, so unlinking takes no other device's |
| DeviceNames.LinkReaches | src/devices.rs:245-248 | A device's link, however deep its name, followed from its own directory leads to `/dev/.psbox/` and the node's name |
| DeviceNames.HiddenNumbered | src/devices.rs:326-328 | A node is named `c`, its major number, a dash and its minor one, in decimal |
| Supervisor.Sandbox.PublishLink | src/supervisor.rs:2012-2032 | Puts a link in place, replacing another, or changes nothing |
| Supervisor.Sandbox.UnlinkIfOurs | src/supervisor.rs:2034-2047 | Removes a link only when it has the given target |
| Supervisor.Sandbox.Publish | src/supervisor.rs:1659-1713 | Publishes a node and a link of each name that leads to it, or undoes it; what cannot be undone stays recorded as incomplete |
| Supervisor.Sandbox.Unpublish | src/supervisor.rs:1719-1752 | Removes a device, or keeps its record as incomplete and tells of it |
| Supervisor.Sandbox.Reconcile | src/supervisor.rs:1629-1657 | Afterwards a device is published completely if and only if it is there and of some class, unless a step failed, and then it is not complete; all the while nodes are attached exactly when recorded, links, followed from their own directories, lead to attached nodes, leftovers are in `unapplied`, and those in `pending_restart` |
| Supervisor.Sandbox.Apply | src/supervisor.rs:1081-1183 | Applies a plan live or gives reasons to restart, keeping the same invariant; exactly the failed mounts join `unapplied`; with no failure the script was run whole, and over layered plans that is so whenever the kernel refuses nothing, and every path shows what the plan without the optional mounts left out for want of a source would |
| Supervisor.Sandbox.DetachMounts | src/supervisor.rs:1112-1126 | Detaches in order, and tells of exactly the mounts the kernel refused or that were not there, but for optional ones |
| Supervisor.Sandbox.AttachMounts | src/supervisor.rs:1127-1140 | Attaches in order, and tells of exactly the mounts the kernel refused, leaving out optional ones without a source |
| Supervisor.DetachesTold | src/supervisor.rs:1112-1126 | A detach is told of, by its place, if and only if the kernel refuses it or nothing is mounted just there, save for a bind that may lack its source |
| Supervisor.AttachesTold | src/supervisor.rs:1127-1140 | An attach is told of, by its place, if and only if the kernel refuses it and it is no bind that may lack its source and does; what is not refused is attached |
| ExecQuoting.SplitUndoesJoin | src/desktop.rs:237-300 | Splitting undoes joining, for every list of arguments |
| ExecQuoting.SplitExecOf | src/desktop.rs:237-278 | The scanner gives the arguments of a value, or the error of an unfinished quote or escape |
| DesktopWords.SplitsExactly | src/desktop.rs:237-278 | A value splits into some words if and only if it is written of plain characters, quoted runs and blanks that give those words |
| DesktopWords.JoinsExactly | src/desktop.rs:281-300 | A joined value is the arguments with a space between them, each as it is, or quoted and escaped when it is empty or has a character that must be quoted |
| DesktopWords.LaunchesExactly | src/desktop.rs:317-382 | What an `Exec` runs through psbox, in words: the command line itself after `--exec --` when it begins with `env` or a path, else its arguments after `--`, without those to remove but with every field code |
| DesktopWords.RewritesTo | src/desktop.rs:362-382 | With distinct section names, exactly the `Exec` of the main and action sections change, each to run its words so |
| DesktopEntries.GetAfterSet | src/desktop.rs:110-148 | Setting a key changes that value and no other |
| DesktopWords.SetsExactly | src/desktop.rs:123-148 | Setting replaces a key's first line in place and drops its others, or adds one just after the last key; every other line stays |
| DesktopEntries.RewriteKeepsArguments | src/desktop.rs:317-382 | With distinct section names, each rewritten `Exec` splits into the psbox command, its marker and the kept arguments in order; every other value is as it was |
| DesktopEntries.RewriteFails | src/desktop.rs:362-382 | Rewriting fails if and only if some `Exec` cannot be split or is empty |
| DesktopEntries.SharedNamesAreRewrittenTwice | src/desktop.rs:193-199 | With two sections of one name the promise fails |
| DesktopRewrites.RewritesExactly | src/desktop.rs:193-382 | As long as none of psbox's own words is to be removed, a section's rewritten `Exec` keeps the promise if and only if it has none or shares its name with no other |
| DesktopRewrites.RewriteGrows | src/desktop.rs:362-382 | Rewriting an `Exec` again makes it longer |
| DesktopEntries.Entry.Value | src/desktop.rs:110-120 | The first value of a key in the first section of a name |
| DesktopEntries.Entry.Set | src/desktop.rs:123-148 | Replaces the first value in place and drops the others, or adds a line after the last key |
| DesktopEntries.Entry.Rewrite | src/desktop.rs:362-382 | Rewrites every `Exec` in the entry, or stops at the first that cannot be split, with those before it rewritten |

## Left out

- ReloadPlans.ScriptShowsTheSame: the mounts of each plan are distinct, and every one of the old plan's is attached when the script starts.
- Supervisor.Sandbox.Apply: the reconciliation after a change of device classes is a step of its own; mounts made by `psbox mount`, overlay refresh and forwarded sockets are not among the mounts.
- Supervisor.Sandbox.Publish: one failing step stands for every failure before the node is attached, and making mount points and removing the hidden file are not modelled.
- WaylandTable.Proxy.Request: what the proxy tracks about surfaces, outputs, positioners and frames, and what that changes in arguments, is not modelled; whether a frame swallows a request, whether a title bar could be drawn, and which global was offered are parameters, as are the protocol's descriptions of messages.
- WaylandTable.Proxy.Bind: which global was offered, in which version, is a parameter.
- WaylandTable.Proxy.ForwardRequest: whether a frame keeps a request from the compositor is a parameter, and changes to size limits and positioners are not modelled.
- WaylandTable.Proxy.DecorationRequest: whether a frame could be drawn is a parameter, and taking one away is not modelled.
- WaylandTable.Proxy.Event: whether an event passes is a parameter, given whether it names a hidden object; changes to its sizes and scales are not modelled; events that destroy their sender create no object, and an event creates at most one, as in every protocol the proxy knows.
- WaylandSocket.Socket.Flush: what the kernel makes of each write is a parameter.
- WaylandRuns.RunConserves: the bytes are those of messages within the size limit; a larger one is refused and queues nothing.
- Connections.Conn.AwaitReply: the call was sent before, deadlines are not modelled, and a socket is the list of chunks it will give.
- Connections.Conn.Call: sending the call, and the serial that gives, come before.
- CodecRoundTrip.ValueRoundTrip: doubles are their 64 bits, and encodings are under 4 GiB, where a length still fits its 32 bits.
- Writers.Writer.Write: the program panics on an array that names no element type, so that is required of a caller.
- GatewayAnswers.EndAnswersAll: calls held for a registration when the connection ends are not answered by the program, and are not claimed to be.
- GatewayOrder.PortalCallsInOrder: one client; a lookup that does not find it ends its call with an error; making its connection and its first registration come before the first state.
- PlanBuild.BuildMounts: a compositor's socket has a name; the texts of the link handler are parameters.
- The gateway's bodies, path rewriting, file requests and the portal policy; each verdict is a parameter of the step that asks for it.
- Wraparound of serial numbers, and memory limits.
- Setting up namespaces, cgroups, seccomp and Landlock, the mount system calls themselves, inotify, and starting processes.
- Evaluating and validating configurations, and everything of a plan but what a reload compares.
- Drawing title bars, scaling, pointer themes, terminal tables, the command line, reports and idle timers.
- Desktop entry parsing and rendering, value escaping, and finishing and hiding entries.
