# ZmqDialog core in Dafny

ZmqDialog is a small publish/subscribe layer over ZeroMQ. A central registry, `DlgServer`, listens on the well-known port 55550. It keeps one broker, `aBroker`, per service name. A subscriber, `DlgSubscriber`, asks the registry to subscribe it to a service. A publisher, `DlgPublisher`, asks it to be registered for one. In both cases the registry records the peer with the service's broker and replies with the broker's endpoint. The client then talks to the broker directly. Each broker queues the text and binary messages its publishers send, and in every loop iteration it fans the queue out to all of its subscribers.

Every message is a `DlgMessage`, an envelope of five frames: service name, from, to, message type and body. Each frame is a 4-byte little-endian length followed by the payload (`message_array_t`). String frames carry a terminating NUL.

The modules, in dependency order:

- `Bytes`: bytes, C strings (`const char*` read up to the first NUL), and 32-bit little-endian words.
- `Transport`: the socket as the core observes it. A ROUTER or DEALER socket has a log of sent parts and an inbox of arrived parts. Whether a send is accepted is a variable of the environment (`linkUp`).
- `Frames`: the frame codec. It covers encoding and decoding of string, buffer and word frames, in-place update, pop from the front, and the multipart send/receive framing.
- `Envelope`: the five-field `DlgMessage` layout and its getters.
- `Messages`: class `Message`, the `message_array_t`/`DlgMessage` object. It holds the frame list and the routing identity, and its methods update them in place.
- `Ids`: peer identities, ordered as `std::map<std::string, …>` orders its keys.
- `ServiceBroker`: class `Broker` (`aBroker`). The pure handler `Dispatch`, one loop iteration as the function `Incoming`, and the fan-out order `Deliveries` specify it.
- `ServiceRegistry`: class `Registry` (`DlgServer`). The functions `Admit` and `Serve` specify it.
- `SubscriberClient`: class `Subscriber` (`DlgSubscriber`), with its receive loop specified by `React`.
- `PublisherClient`: class `Publisher` (`DlgPublisher`), with its registration poll specified by `Polled`.

## Model

| member | source | states |
|---|---|---|
| Bytes.CString | ZmqDialog/sources/DlgMessage.cc:115 | reading a buffer as a C string yields its longest NUL-free prefix, ended by a NUL when one is present |
| Bytes.NulFree | ZmqDialog/sources/DlgMessage.cc:115 | a byte string holds no NUL, so it survives being read as a C string |
| Bytes.LE32 | ZmqDialog/sources/DlgMessage.cc:34-36 | the four bytes `memcpy` writes for a 32-bit length, least significant first |
| Bytes.Word | ZmqDialog/sources/DlgMessage.cc:111 | the 32-bit value read from the first four bytes of a frame |
| Bytes.CStringFixed | ZmqDialog/sources/DlgMessage.cc:45-73 | a string survives `c_str()` unchanged exactly when it holds no NUL |
| Bytes.CStringTerminated | ZmqDialog/sources/DlgMessage.cc:45-73 | a NUL-free string written with its terminator reads back as itself, whatever follows |
| Bytes.WordOfLE32 | ZmqDialog/sources/DlgMessage.cc:34-36 | a 32-bit value written little-endian reads back as the same value |
| Bytes.LE32OfWord | ZmqDialog/sources/DlgMessage.cc:111 | any four bytes are the little-endian encoding of the word read from them |
| Bytes.WordPrefix | ZmqDialog/sources/DlgMessage.cc:127 | the length word of a frame depends only on its first four bytes |
| Frames.StrFrameLayout | ZmqDialog/sources/DlgMessage.cc:45-73 | a string frame is the length of the C string plus one, then the C string, then a NUL |
| Frames.StrFrame | ZmqDialog/sources/DlgMessage.cc:45-73 | the frame `Update(idx, const char*)` writes: the C-string length plus one, truncated to 32 bits, then the C string and its NUL |
| Frames.BinFrame | ZmqDialog/sources/DlgMessage.cc:30-43 | the frame `Update(idx, void*, size)` writes: the 32-bit size, then the bytes |
| Frames.FitsStr | ZmqDialog/sources/DlgMessage.cc:49 | a string whose length plus NUL fits the 32-bit length word |
| Frames.BinFrameLayout | ZmqDialog/sources/DlgMessage.cc:30-43 | a buffer frame is its length word followed by the bytes |
| Frames.Declared | ZmqDialog/sources/DlgMessage.cc:111 | the length a frame declares in its first four bytes |
| Frames.WellSized | ZmqDialog/sources/DlgMessage.cc:109-114 | a frame holds at least the length word, and exactly the bytes it declares after it |
| Frames.DecodeStr | ZmqDialog/sources/DlgMessage.cc:242-269 | a string field reads when the frame is well sized and its payload is empty or one C string with its NUL |
| Frames.DecodeBuf | ZmqDialog/sources/DlgMessage.cc:340-353 | a buffer field reads when the frame is well sized |
| Frames.DecodeWord | ZmqDialog/sources/DlgMessage.cc:309-319 | a type field reads when the frame is well sized with four payload bytes |
| Frames.StrRoundTrip | ZmqDialog/sources/DlgMessage.cc:242-269 | decoding an encoded string gives back its C-string reading |
| Frames.StrDecodeExact | ZmqDialog/sources/DlgMessage.cc:242-269 | a frame decodes to a string exactly when it is that string's encoding, or is the empty frame with an empty result |
| Frames.BufRoundTrip | ZmqDialog/sources/DlgMessage.cc:340-377 | decoding an encoded buffer gives back the buffer |
| Frames.BufDecodeExact | ZmqDialog/sources/DlgMessage.cc:340-377 | a frame decodes to a buffer exactly when it is that buffer's encoding |
| Frames.WordRoundTrip | ZmqDialog/sources/DlgMessage.cc:309-319 | a frame decodes to a message type exactly when it is that type's 4-byte encoding |
| Frames.UpdateStr | ZmqDialog/sources/DlgMessage.cc:45-73 | the string `Update` on a frame list: fails beyond the end, replaces at an index, appends at the end or for a negative index |
| Frames.UpdateStrCases | ZmqDialog/sources/DlgMessage.cc:45-73 | the string update fails exactly beyond the end; in range it changes only the indexed frame; at the end or for a negative index it appends |
| Frames.UpdateBin | ZmqDialog/sources/DlgMessage.cc:30-43 | the buffer `Update` on a frame list: fails at or beyond the end, replaces at an index, appends for a negative index |
| Frames.UpdateBinCases | ZmqDialog/sources/DlgMessage.cc:30-43 | the buffer update fails exactly at or beyond the end; in range it changes only the indexed frame; for a negative index it appends |
| Frames.PopStr | ZmqDialog/sources/DlgMessage.cc:103-117 | the string pop: fails on no frames; otherwise drops the front frame and yields its C string when it is well sized |
| Frames.PopStrRemovesFront | ZmqDialog/sources/DlgMessage.cc:103-117 | popping from no frames fails and changes nothing; otherwise exactly the front frame is removed, also when the pop fails |
| Frames.PushPopStr | ZmqDialog/sources/DlgMessage.cc:84-117 | popping a string pushed to the front returns it and leaves the old frames |
| Frames.PopBufAsWritten | ZmqDialog/sources/DlgMessage.cc:119-136 | the buffer pop as written: after the 4-byte check the declared length is compared only with the capacity, and a too-small capacity reports the declared length |
| Frames.PopBufOverRead | ZmqDialog/sources/DlgMessage.cc:119-136 | as written, a frame that declares 8 bytes but holds 1 is accepted with size 8 (see Findings) |
| Frames.PopBuf | ZmqDialog/sources/DlgMessage.cc:119-136 | the buffer pop with the declared length also checked against the bytes the frame holds |
| Frames.PopBufExact | ZmqDialog/sources/DlgMessage.cc:119-136 | a successful pop returns exactly the declared bytes, within capacity, and the remaining frames; a too-small capacity fails and reports the size needed |
| Frames.PushPopBuf | ZmqDialog/sources/DlgMessage.cc:75-82 | popping a buffer pushed to the front, with enough capacity, returns it, its size and the old frames, from the pop as written and from the corrected one |
| Frames.PopBufAgrees | ZmqDialog/sources/DlgMessage.cc:119-136 | the pop as written and the corrected pop agree unless the front frame declares a length other than the bytes it holds |
| Frames.TakeFrames | ZmqDialog/sources/DlgMessage.cc:138-175 | the receive loop collects part payloads in order up to the first part without the "more" flag |
| Frames.FramesToParts | ZmqDialog/sources/DlgMessage.cc:200-204 | the parts the send loop emits: every frame in order, "more" on all but the last |
| Frames.Outgoing | ZmqDialog/sources/DlgMessage.cc:189-204 | the parts a send emits: on a ROUTER the identity part with "more" first, then the frames |
| Frames.Receive | ZmqDialog/sources/DlgMessage.cc:138-175 | one receive: on a ROUTER the first part is the identity; frames are taken up to one without "more"; the call fails when the parts run out |
| Frames.TakeFramesUnique | ZmqDialog/sources/DlgMessage.cc:138-175 | the parts of a multipart message determine the frames taken and whether the message was complete |
| Frames.TakeFramesOfParts | ZmqDialog/sources/DlgMessage.cc:177-212 | the receive loop takes back exactly the frames the send loop put on the wire |
| Frames.SendRecvRoundTrip | ZmqDialog/sources/DlgMessage.cc:138-212 | a sent message is received with the same frames, with the identity on a ROUTER, and the later parts stay queued |
| Envelope.TypeCodesDistinct | ZmqDialog/include/DlgMessage.h:72-74 | the five message types have distinct codes |
| Envelope.EnvelopeFrames | ZmqDialog/sources/DlgMessage.cc:218-226 | the five frames the five-argument constructor pushes back: three strings, the type word, the body string |
| Envelope.DefaultFrames | ZmqDialog/sources/DlgMessage.cc:228-236 | the five frames of the default constructor |
| Envelope.StrField | ZmqDialog/sources/DlgMessage.cc:242-338 | a string getter: fails on fewer than `N_FIELDS` frames, otherwise decodes its field |
| Envelope.ServiceName | ZmqDialog/sources/DlgMessage.cc:242-269 | `GetServiceName`: the string in field 0 |
| Envelope.FromAddress | ZmqDialog/sources/DlgMessage.cc:271-288 | `GetFromAddress`: the string in field 1 |
| Envelope.ToAddress | ZmqDialog/sources/DlgMessage.cc:290-307 | `GetToAddress`: the string in field 2 |
| Envelope.MessageType | ZmqDialog/sources/DlgMessage.cc:309-319 | `GetMessageType`: the 32-bit word in field 3, failing on fewer than five frames or a malformed field |
| Envelope.MessageBody | ZmqDialog/sources/DlgMessage.cc:321-338 | `GetMessageBody`: the string in field 4 |
| Envelope.MessageBuffer | ZmqDialog/sources/DlgMessage.cc:340-377 | `GetMessageBuffer`: fails on fewer than five frames or a malformed body; capacity 0 reports the size; too small a capacity reports the size and fails; a missing buffer fails; otherwise copies the body |
| Envelope.Identity | ZmqDialog/sources/DlgMessage.cc:379-383 | `GetIdentity`: the stored identity read as a C string |
| Envelope.DefaultLayout | ZmqDialog/sources/DlgMessage.cc:228-236 | the default envelope has five frames: empty strings, and type EMPTY_MESSAGE |
| Envelope.EnvelopeReadBack | ZmqDialog/sources/DlgMessage.cc:218-226 | each field of a constructed envelope reads back through its getter, and the body probes as a buffer of its length plus NUL |
| Envelope.StrFieldExact | ZmqDialog/sources/DlgMessage.cc:242-338 | a string getter succeeds with a value exactly when there are five frames and that field encodes the value |
| Envelope.StrFieldRejects | ZmqDialog/sources/DlgMessage.cc:242-338 | a getter fails on fewer than five frames, on a frame whose length word disagrees with its size, on an inner NUL and on a missing terminator |
| Envelope.MessageTypeExact | ZmqDialog/sources/DlgMessage.cc:309-319 | the type getter succeeds exactly when there are five frames and the type frame encodes that type |
| Envelope.BufferProbeProtocol | ZmqDialog/sources/DlgMessage.cc:340-377 | on a well-formed body, capacity 0 reports its size, a large enough buffer receives it, a too-small capacity fails with the size, and a missing buffer fails |
| Envelope.BufferProbeFailures | ZmqDialog/sources/DlgMessage.cc:340-377 | the buffer getter fails exactly on fewer than five frames, a malformed body, or a nonzero capacity that is too small or has no buffer |
| Envelope.SetStrFieldThenGet | ZmqDialog/sources/DlgMessage.cc:392-415 | setting a string field makes its getter return the value and leaves the other fields alone |
| Envelope.SetTypeThenGet | ZmqDialog/sources/DlgMessage.cc:407-410 | setting the type makes the type getter return it and leaves the other frames alone |
| Envelope.SetTypeNeedsFourFrames | ZmqDialog/sources/DlgMessage.cc:30-33 | setting the type fails exactly when there are at most three frames |
| Envelope.IdentityRoundTrip | ZmqDialog/sources/DlgMessage.cc:379-390 | an identity stored with its NUL reads back as the original name |
| Envelope.CStringPrefix | ZmqDialog/sources/DlgMessage.cc:379-383 | a buffer that starts with a NUL-free string and then a NUL reads as that string |
| Messages.Message.Empty | ZmqDialog/include/DlgMessage.h:19 | a new array has no frames and no identity |
| Messages.Message.FromString | ZmqDialog/sources/DlgMessage.cc:15-22 | the string constructor holds the one string frame |
| Messages.Message.Copy | ZmqDialog/sources/DlgMessage.cc:24-28 | the copy has the same frames and an empty identity |
| Messages.Message.Default | ZmqDialog/sources/DlgMessage.cc:228-236 | the default message holds the default five-field envelope |
| Messages.Message.constructor | ZmqDialog/sources/DlgMessage.cc:218-226 | the five-argument message holds the envelope of its arguments |
| Messages.Message.NParts | ZmqDialog/include/DlgMessage.h:25 | `GetNParts`: the number of frames |
| Messages.Message.Clear | ZmqDialog/include/DlgMessage.h:24 | clearing removes every frame and keeps the identity |
| Messages.Message.Update | ZmqDialog/sources/DlgMessage.cc:45-73 | a string update replaces the frame at the index, appends at the end or for a negative index, and fails beyond the end |
| Messages.Message.UpdateBuf | ZmqDialog/sources/DlgMessage.cc:30-43 | a buffer update replaces the frame at the index, appends for a negative index, and fails at or beyond the end |
| Messages.Message.PushFront | ZmqDialog/sources/DlgMessage.cc:84-91 | the string frame goes in front of the others |
| Messages.Message.PushFrontBuf | ZmqDialog/sources/DlgMessage.cc:75-82 | the buffer frame goes in front of the others |
| Messages.Message.PushBack | ZmqDialog/sources/DlgMessage.cc:98-101 | the string frame goes after the others |
| Messages.Message.PushBackBuf | ZmqDialog/sources/DlgMessage.cc:93-96 | the buffer frame goes after the others |
| Messages.Message.PopFront | ZmqDialog/sources/DlgMessage.cc:103-117 | the front frame is always removed; it yields its string only when its length word matches its size |
| Messages.Message.PopFrontBuf | ZmqDialog/sources/DlgMessage.cc:119-136 | follows the pop as written: the front frame is removed; after the 4-byte check a declared length within capacity is accepted even when the frame holds fewer bytes; a larger one reports the size needed |
| Messages.SendParts | ZmqDialog/sources/DlgMessage.cc:196-204 | all parts go out in order exactly when the link accepts them; a refused part ends the call with failure |
| Messages.ReadFrames | ZmqDialog/sources/DlgMessage.cc:161-172 | the receive loop: parts are taken into frames up to one without "more"; it fails when the inbox runs out |
| Messages.Message.Send | ZmqDialog/sources/DlgMessage.cc:177-212 | a ROUTER send needs an identity and puts it first; every frame follows in order with "more" on all but the last; a refused part fails the call |
| Messages.Message.Recv | ZmqDialog/sources/DlgMessage.cc:138-175 | the frames become exactly the received message's frames, a ROUTER's identity part is appended to the identity, and the call succeeds exactly when a complete message was taken |
| Messages.Message.SetIdentity | ZmqDialog/sources/DlgMessage.cc:385-390 | the identity becomes the name with its NUL |
| Messages.Message.SetServiceName | ZmqDialog/sources/DlgMessage.cc:392-395 | the service field is updated in place |
| Messages.Message.SetFromAddress | ZmqDialog/sources/DlgMessage.cc:397-400 | the from field is updated in place |
| Messages.Message.SetToAddress | ZmqDialog/sources/DlgMessage.cc:402-405 | the to field is updated in place |
| Messages.Message.SetMessageType | ZmqDialog/sources/DlgMessage.cc:407-410 | the type field is updated in place |
| Messages.Message.SetMessageBody | ZmqDialog/sources/DlgMessage.cc:412-415 | the body field is updated in place, or appended after exactly four frames |
| Messages.Message.SetMessageBuffer | ZmqDialog/sources/DlgMessage.cc:417-420 | the body field is replaced by a buffer frame |
| Ids.BelowIrreflexive | ZmqDialog/include/DlgServer.h:100 | no key orders before itself |
| Ids.BelowTransitive | ZmqDialog/include/DlgServer.h:100 | the key order is transitive |
| Ids.BelowTotal | ZmqDialog/include/DlgServer.h:100 | any two distinct keys are ordered |
| Ids.Below | ZmqDialog/include/DlgServer.h:100 | the `std::string` key order: byte by byte over unsigned bytes, a proper prefix first |
| Ids.Sorted | ZmqDialog/include/DlgServer.h:100 | a key list in the order a `std::map` iterates it |
| Ids.SortedDistinct | ZmqDialog/include/DlgServer.h:100 | the keys of a map are pairwise distinct |
| Ids.InsertSorted | ZmqDialog/sources/DlgServer.cc:235-247 | inserting a new key keeps the keys in order and adds exactly that key |
| ServiceBroker.Dispatch | ZmqDialog/sources/DlgServer.cc:157-187 | registering or subscribing a known peer fails, and a new one is added; a publication makes its sender a publisher and is queued exactly when its body reads; other types are accepted and ignored |
| ServiceBroker.Incoming | ZmqDialog/sources/DlgServer.cc:140-187 | one receive of the broker loop: a failed receive, an unreadable type or a failed handler skips the fan-out, otherwise `Dispatch` decides |
| ServiceBroker.Row | ZmqDialog/sources/DlgServer.cc:195-196 | the queue addressed to one subscriber, in queue order |
| ServiceBroker.Deliveries | ZmqDialog/sources/DlgServer.cc:192-197 | the fan-out order: subscribers in key order, for each the whole queue |
| ServiceBroker.Wire | ZmqDialog/sources/DlgServer.cc:207-223 | the parts a ROUTER emits for deliveries: each message preceded by its subscriber identity |
| ServiceBroker.ReceivedBy | ZmqDialog/sources/DlgServer.cc:207-223 | the messages routed to one subscriber, in order |
| ServiceBroker.RowReceivedBy | ZmqDialog/sources/DlgServer.cc:195-196 | a subscriber receives its own row as the whole queue, and nothing from another row |
| ServiceBroker.EachSubscriberGetsAll | ZmqDialog/sources/DlgServer.cc:190-197 | the fan-out gives each subscriber every queued message once, in queue order, and gives non-subscribers nothing |
| ServiceBroker.PublishFansOut | ZmqDialog/sources/DlgServer.cc:125-205 | a text publication arriving at the broker registers its sender and reaches each subscriber after what was already queued, and no one else |
| ServiceBroker.DeliverTo | ZmqDialog/sources/DlgServer.cc:195-196 | the inner loop sends the whole queue, in order, addressed to one subscriber, or nothing when the link refuses |
| ServiceBroker.FanOut | ZmqDialog/sources/DlgServer.cc:192-197 | the outer loop puts on the wire the deliveries of every queued message to every subscriber in key order |
| ServiceBroker.Address | ZmqDialog/sources/DlgServer.cc:207-223 | the message gets the subscriber identity with its NUL and is put on the ROUTER when the link accepts |
| ServiceBroker.Broker.constructor | ZmqDialog/sources/DlgServer.cc:86-104 | a new broker has a ROUTER bound to its endpoint and no subscribers, publishers or requests |
| ServiceBroker.Broker.AddSubscriber | ZmqDialog/sources/DlgServer.cc:235-247 | fails for a known subscriber, otherwise inserts it in key order |
| ServiceBroker.Broker.AddPublisher | ZmqDialog/sources/DlgServer.cc:249-261 | fails for a known publisher, otherwise adds it |
| ServiceBroker.Broker.DeletePublisher | ZmqDialog/sources/DlgServer.cc:274-284 | removes the publisher if present |
| ServiceBroker.Broker.DestroyPublishers | ZmqDialog/sources/DlgServer.cc:263-272 | removes every publisher and keeps the subscribers and queue |
| ServiceBroker.Broker.AddRequest | ZmqDialog/sources/DlgServer.cc:225-233 | queues a message at the end and refuses a null one |
| ServiceBroker.Broker.RegisterPublisher | ZmqDialog/sources/DlgServer.cc:377-393 | agrees with `Dispatch` for REGISTER_PUBLISHER |
| ServiceBroker.Broker.SubscribeToService | ZmqDialog/sources/DlgServer.cc:360-375 | agrees with `Dispatch` for SUBSCRIBE_TO_SERVICE |
| ServiceBroker.Broker.PublishText | ZmqDialog/sources/DlgServer.cc:288-320 | agrees with `Dispatch` for PUBLISH_TEXT_MESSAGE, and queues the message exactly when `Dispatch` says so |
| ServiceBroker.Broker.PublishBinary | ZmqDialog/sources/DlgServer.cc:322-357 | agrees with `Dispatch` for PUBLISH_BINARY_MESSAGE, and queues the message exactly when `Dispatch` says so |
| ServiceBroker.Broker.SendMessage | ZmqDialog/sources/DlgServer.cc:207-223 | addresses the message to the subscriber and puts it on the ROUTER |
| ServiceBroker.Broker.DeliverAll | ZmqDialog/sources/DlgServer.cc:190-201 | sends every queued message to every subscriber in key order, then empties the queue |
| ServiceBroker.Broker.HandleIncoming | ZmqDialog/sources/DlgServer.cc:140-187 | receiving, reading the type and running the handler change the broker as `Incoming` says |
| ServiceBroker.Broker.Step | ZmqDialog/sources/DlgServer.cc:125-205 | one loop iteration follows `Incoming`; unless a step failed, the whole queue then goes to every subscriber and is emptied |
| ServiceRegistry.Join | ZmqDialog/sources/DlgServer.cc:551-624 | a peer joins a broker in the role its type names, and the subscriber keys stay ordered |
| ServiceRegistry.Enrol | ZmqDialog/sources/DlgServer.cc:551-624 | enrolment keeps every service's keys ordered and creates no service |
| ServiceRegistry.EnrolChanges | ZmqDialog/sources/DlgServer.cc:551-624 | only the named service changes; the sender joins the named role; a reply carrying the broker endpoint goes out exactly when the sender is new in that role |
| ServiceRegistry.SubscribeTwice | ZmqDialog/sources/DlgServer.cc:567-571 | subscribing the same peer twice: the second request gets no reply and changes nothing |
| ServiceRegistry.RegisterTwice | ZmqDialog/sources/DlgServer.cc:589-624 | registering the same publisher twice: the second request gets no reply and changes nothing |
| ServiceRegistry.ReplyParts | ZmqDialog/sources/DlgServer.cc:573-582 | the parts of a reply on the registry ROUTER: the peer identity with its NUL, then the envelope |
| ServiceRegistry.Admit | ZmqDialog/sources/DlgServer.cc:506-543 | an unreadable service name changes nothing; a readable one creates the service exactly when it is new, bound to the given endpoint; a known service keeps its endpoint and only gains keys; every other service is untouched; an unreadable type gets no reply |
| ServiceRegistry.Serve | ZmqDialog/sources/DlgServer.cc:484-548 | one registry iteration keeps the services well kept, never forgets one, and never changes a known service endpoint or drops its keys |
| ServiceRegistry.AdmitSubscribe | ZmqDialog/sources/DlgServer.cc:551-587 | a new subscriber's request records it with the service, creating the service if needed, and is answered with the broker endpoint |
| ServiceRegistry.SubscribeHandshake | ZmqDialog/sources/DlgServer.cc:484-587 | the same, starting from the parts on the wire |
| ServiceRegistry.Answer | ZmqDialog/sources/DlgServer.cc:573-582 | the reply envelope (service, "DlgServer", peer, type, endpoint) is routed to the peer when the link accepts it |
| ServiceRegistry.Registry.constructor | ZmqDialog/sources/DlgServer.cc:403-433 | a new registry has a ROUTER on its endpoint and no services |
| ServiceRegistry.Registry.CreateService | ZmqDialog/sources/DlgServer.cc:472-480 | fails for a known name, otherwise adds an empty service bound to the given endpoint |
| ServiceRegistry.Registry.Enroll | ZmqDialog/sources/DlgServer.cc:551-624 | follows `Enrol`; the call succeeds exactly when a reply was due and sent |
| ServiceRegistry.Registry.Handle | ZmqDialog/sources/DlgServer.cc:506-543 | the services and the replies sent follow `Admit` |
| ServiceRegistry.Registry.Step | ZmqDialog/sources/DlgServer.cc:484-548 | one loop iteration follows `Serve` on the inbox |
| SubscriberClient.QueuedExactlyPublished | ZmqDialog/sources/DlgSubscriber.cc:318-355 | a received message is queued exactly when its type is text or binary publication, whether or not its body then reads |
| SubscriberClient.React | ZmqDialog/sources/DlgSubscriber.cc:210-252 | the subscriber loop on a received message: an unreadable type is dropped; a registry reply with a readable body hands off to that body; text and binary publications are queued; others are ignored |
| SubscriberClient.Dialed | ZmqDialog/sources/DlgSubscriber.cc:272 | the endpoint `connect_to` dials: "tcp://" then the target C string |
| SubscriberClient.HandoffAsWritten | ZmqDialog/sources/DlgSubscriber.cc:309 | the endpoint dialled on a registry reply as written: `connect_to` on the reply body |
| SubscriberClient.ReplyHandsOff | ZmqDialog/sources/DlgSubscriber.cc:293-316 | the registry's reply makes the subscriber switch to the endpoint in its body |
| SubscriberClient.HandoffAsWrittenMissesBroker | ZmqDialog/sources/DlgSubscriber.cc:262-316 | as written, the subscriber dials the broker endpoint with a second scheme prefix, which is not the broker's endpoint (see Findings) |
| SubscriberClient.SubscriptionHandsOffToBroker | ZmqDialog/sources/DlgSubscriber.cc:122-149 | a subscription request reaches the registry, which records the subscriber and answers; the answer read back hands the subscriber off to the broker endpoint |
| SubscriberClient.Subscriber.constructor | ZmqDialog/sources/DlgSubscriber.cc:8-33 | a new subscriber has its names, no connection and no messages |
| SubscriberClient.Subscriber.Named | ZmqDialog/sources/DlgSubscriber.cc:8-33 | the name-only constructor leaves the service and server empty |
| SubscriberClient.Subscriber.ForService | ZmqDialog/sources/DlgSubscriber.cc:8-33 | the two-name constructor leaves the server empty |
| SubscriberClient.Subscriber.SetServerName | ZmqDialog/sources/DlgSubscriber.cc:51-65 | the server name is set only when none was set before |
| SubscriberClient.Subscriber.SetServiceName | ZmqDialog/sources/DlgSubscriber.cc:66-79 | the service name is set only when none was set before |
| SubscriberClient.Subscriber.CloseConnection | ZmqDialog/sources/DlgSubscriber.cc:254-260 | drops the socket and keeps everything else |
| SubscriberClient.Subscriber.ConnectTo | ZmqDialog/sources/DlgSubscriber.cc:262-291 | replaces the socket with a new DEALER, under the subscriber's identity, on "tcp://" followed by the target |
| SubscriberClient.Subscriber.Dial | ZmqDialog/sources/DlgSubscriber.cc:262-291 | replaces any connection with a new DEALER under the subscriber identity on exactly the given endpoint: the socket replacement `connect_to` performs once the endpoint has been formatted |
| SubscriberClient.Subscriber.Connect | ZmqDialog/sources/DlgSubscriber.cc:81-100 | connects to the server exactly when not yet connected and a server name is set |
| SubscriberClient.Subscriber.ConnectServer | ZmqDialog/sources/DlgSubscriber.cc:102-112 | takes the server name and connects to it |
| SubscriberClient.Subscriber.ReConnect | ZmqDialog/sources/DlgSubscriber.cc:114-120 | closes the connection, takes the new server name and connects exactly when it is non-empty |
| SubscriberClient.Subscriber.Subscribe | ZmqDialog/sources/DlgSubscriber.cc:122-149 | sends the subscription envelope (service, name, server, SUBSCRIBE_TO_SERVICE, empty body) exactly when connected, a service is set and the link accepts it |
| SubscriberClient.Subscriber.SubscribeTo | ZmqDialog/sources/DlgSubscriber.cc:151-161 | takes the service name, then subscribes as above |
| SubscriberClient.Subscriber.ExtractMessage | ZmqDialog/sources/DlgSubscriber.cc:181-194 | takes the oldest queued message, and fails on an empty queue |
| SubscriberClient.Subscriber.IsConnected | ZmqDialog/include/DlgSubscriber.h:58 | connected exactly when there is a socket |
| SubscriberClient.Subscriber.HasData | ZmqDialog/include/DlgSubscriber.h:65 | data is waiting exactly when the queue is non-empty |
| SubscriberClient.Subscriber.Step | ZmqDialog/sources/DlgSubscriber.cc:196-252 | one loop iteration follows `React` on the received message: ignored; a handoff through `connect_to` to "tcp://" followed by the reply body, as written; or queued with its frames |
| PublisherClient.OnlyThreePolls | ZmqDialog/sources/DlgPublisher.cc:59-136 | registration looks at no more than three polls |
| PublisherClient.Polled | ZmqDialog/sources/DlgPublisher.cc:59-136 | the registration poll: up to three polls; the first that finds parts receives one message and decides by `ReplyOutcome`; none found is silence |
| PublisherClient.PollStep | ZmqDialog/sources/DlgPublisher.cc:64-67 | one poll adds what arrived in that round to the inbox before it is looked at |
| PublisherClient.SilentWithoutAnswer | ZmqDialog/sources/DlgPublisher.cc:59-136 | without an answer the registration gives up after its polls and leaves the inbox empty |
| PublisherClient.ReplyOutcomeCases | ZmqDialog/sources/DlgPublisher.cc:70-98 | an answer hands off exactly when it has type REGISTER_PUBLISHER and a readable body, which is the endpoint |
| PublisherClient.ReplyOutcome | ZmqDialog/sources/DlgPublisher.cc:77-98 | an answer fails on an unreadable or wrong type or an unreadable body, and otherwise hands off to the body |
| PublisherClient.AdmitRegister | ZmqDialog/sources/DlgServer.cc:589-624 | a new publisher's request records it with the service and is answered with the broker endpoint |
| PublisherClient.AnswerHandsOff | ZmqDialog/sources/DlgPublisher.cc:59-136 | the registry's answer arriving in the first poll hands the publisher off to its endpoint and leaves later parts queued |
| PublisherClient.AnswerRead | ZmqDialog/sources/DlgPublisher.cc:70-98 | the registry's answer reads back as a handoff to its endpoint |
| PublisherClient.RegistrationHandsOffToBroker | ZmqDialog/sources/DlgPublisher.cc:18-139 | a registration request reaches the registry, which records the publisher, and its answer hands the publisher off to the broker endpoint |
| PublisherClient.PublicationQueuedByBroker | ZmqDialog/sources/DlgPublisher.cc:141-164 | a text publication from a publisher reaches the broker, registers the publisher, and is delivered to exactly the subscribers |
| PublisherClient.ReadAnswer | ZmqDialog/sources/DlgPublisher.cc:70-98 | reading the answer yields the outcome `ReplyOutcome` gives for the received frames, or failure |
| PublisherClient.AwaitAnswer | ZmqDialog/sources/DlgPublisher.cc:59-136 | the poll loop ends with the outcome `Polled` computes; a handoff switches to a new DEALER on the broker endpoint |
| PublisherClient.Publisher.constructor | ZmqDialog/sources/DlgPublisher.cc:7-9 | a new publisher has its names and no connection |
| PublisherClient.Publisher.IsConnected | ZmqDialog/include/DlgPublisher.h:53 | connected exactly when there is a socket |
| PublisherClient.Publisher.Register | ZmqDialog/sources/DlgPublisher.cc:18-139 | sends the registration envelope and succeeds exactly when the send went out and the polls ended in a handoff or silence; after a handoff it holds the broker socket |
| PublisherClient.Publisher.PublishMessage | ZmqDialog/sources/DlgPublisher.cc:141-164 | stamps its identity and service name on the message and sends its frames when connected and the link accepts |

## Left out

- Threads, mutexes and the `m_isRunning` flags: each loop is modelled as one iteration method (`Step`). Concurrent access to the subscriber queue and the broker maps is not captured.
- Poll timeouts: a poll is "the inbox is non-empty". The parts the publisher's three polls see are a parameter, `arrivals`, one entry per poll.
- Whether the transport accepts a send is a parameter (`linkUp`, `brokerLinkUp`). Bind and connect failures, the exceptions they raise, and `Exception` itself are not modelled.
- `Print` and the debug levels are not modelled; they only write to the console.
- Heap management is not modelled: `delete` of messages and sockets, and leaked messages. In particular, `publish_text_message` and `publish_binary_message` queue a message before checking its body (ZmqDialog/sources/DlgSubscriber.cc:318-355), and when the check fails the receive loop deletes it (ZmqDialog/sources/DlgSubscriber.cc:235-247) while it is still queued, so `ExtractMessage` later hands out a freed pointer. The model (`Subscriber.Step`, `QueuedExactlyPublished`) keeps such a message queued and usable.
- The fixed `char endpoint[256]` and `char port[256]` buffers, and a `sprintf` overflow of them, are not modelled.
- The broker's bound endpoint comes from the transport (`ZMQ_LAST_ENDPOINT`). It is a parameter (`port`), not computed.
- The hard-coded host addresses the registry, brokers and publisher use are not modelled. The publisher's registry endpoint is kept as a constant, but nothing depends on its value.
- `aService`, `aSubscriber` and `aPublisher` are folded into the broker: a subscriber or publisher is its key.
- The registry's view of each service is a value (`ServiceState`), not a pointer to the live broker. That `DlgServer` and the broker threads share one `aBroker` object is not captured.
- SUBSCRIBE_TO_SERVICE and REGISTER_PUBLISHER are used in the source but defined in none of its files. The model gives them the codes 3 and 4; only their being distinct from each other and from the other three is used.
- `DlgSubscriber::ReSubscribe` calls a member that is declared nowhere, so it has no behaviour to model.
- `DlgPublisher.h` declares `SetServerName`, `Connect`, `ReConnect`, `ReRegister`, `connect_to` and other members that the source never defines; they are not modelled.
- The `DlgPublisher` destructor dereferences `m_socket` without a null check; destruction is not modelled.
- The command-line programs `DlgServer.cpp`, `DlgSubscriber.cpp` and `DlgPublisher.cpp` are not part of this model.
- Envelope.Identity, Frames.PopStr: the source reads the stored identity (ZmqDialog/sources/DlgMessage.cc:381) and a popped string payload (ZmqDialog/sources/DlgMessage.cc:115) through `(char*)` casts, so a buffer without a NUL is read past its end until some NUL happens to follow. The model stops at the buffer's end and returns the whole buffer. Every identity `SetIdentity` stores and every payload `PushFront` writes carries its NUL, so only identities set by a peer without a terminator and hand-built frames are affected.
- Frame lengths are 32-bit. String frames are truncated to 32 bits as the source writes them. The round-trip lemmas require lengths below 2^32.

Where the documentation and the code disagree, the model follows the code:

- `Recv` is not atomic. It appends a ROUTER's identity part to the existing identity, and it leaves partly received frames in place on failure.
- A REGISTER_PUBLISHER or SUBSCRIBE_TO_SERVICE request from a peer the broker already knows gets no reply at all (`SubscribeTwice`, `RegisterTwice`).
- The registry creates the service as soon as the service name reads. It does so even when the type frame then fails to read and the message is dropped (`Admit`).
- The identity getter and setter are not declared in `DlgMessage.h`, but the source defines and uses them.

## Findings

| source | as written | input that shows it | evidently intended | confidence | as-written member | corrected member |
|---|---|---|---|---|---|---|
| ZmqDialog/sources/DlgSubscriber.cc:262-316 | `subscribe_to_service` passes the broker endpoint from the registry's reply to `connect_to`, which prefixes "tcp://" again | the endpoint "tcp://192.168.0.112:40001" is dialled as "tcp://tcp://192.168.0.112:40001" | the subscriber connects to the endpoint the broker reported | not executed | SubscriberClient.HandoffAsWrittenMissesBroker | SubscriberClient.SubscriptionHandsOffToBroker |
| ZmqDialog/sources/DlgMessage.cc:119-136 | `PopFront(void*, size_t&)` compares the declared length only with the caller's capacity and copies that many bytes | the frame `08 00 00 00 07` with capacity 8 is accepted with size 8, but holds 1 byte | the declared length is checked against the bytes the frame holds, as in `PopFront(std::string&)` | not executed | Frames.PopBufOverRead | Frames.PopBufExact |
