# SoulCloud client: verified model

A Dafny 4.11 model of the ESP32 SoulCloud client and proofs about it. `dafny verify dfyconfig.toml` checks
everything.

| files | component |
|---|---|
| `Bytes` | C character data and optional values |
| `JsmnSpec`, `JsmnParser`, `JsmnForest`, `JsmnShape`, `Preorder`, `JsmnPrefix` | the jsmn tokenizer in its strict configuration without parent links |
| `JsonGrammar`, `GrammarTokens` | JSON texts after RFC 8259, spelled by byte values, and the tokens they are cut into |
| `JsonText`, `BitMask`, `JsonWriter`, `JsonTree`, `JsonReader`, `RoundTrip`, `ReadBack` | `sc_json_writer` and `sc_json_reader` |
| `RpcMachine`, `RpcOwnership`, `RpcRequests`, `RpcSignals`, `RpcCalls`, `RpcService` | the request protocol of `sc_rpc`, `sc_mqtt` and `run_task` as two interleaved tasks |
| `RpcDevice`, `RpcHandler`, `RpcAnswer` | the same objects with their buffers; the body of an answer, and what its reader finds in it |
| `Ota` | the resumable firmware download |
| `LogUplink` | batching and drop accounting of logs |
| `LogConfig`, `LogConfigText`, `LogConfigExample` | `log.config`, on top of the reader; what it makes of any JSON text; a document it applies too much of |
| `Shell` | command lookup by longest name |

## How the parts fit

**Tokenizer.** `JsmnSpec.Step` is one turn of jsmn's loop as a function; `JsmnParser.Parser` is the loop itself, over
an array, and is proved equal to it. jsmn accepts many malformed texts (`{"a" "b"}`, `{"a":}`, `{} {}`), so every
result about tokens holds for every byte string: at each step the tokens are the pre-order listing of a forest whose
`size` fields are exact child counts. The parents are a witness `par`, because this build stores none;
`PreorderLists.ForestUnique` shows that the tokens determine it, so every result about a document's parents is about
the one list it has. The reader's index arithmetic is then proved against subtrees and children.

**Grammar.** `JsonGrammar` has JSON texts as trees with their white space, escapes and number forms, each piece given by
its bytes and by what it stands for, without a scanner. `GrammarTokens.TextParses` and `ReadBack.ReadText` show that the
tokenizer and the reader take every such text for what it says; `JsmnShape.AcceptedShape` says what any accepted text
must look like. The one liberty is that strings may hold raw control characters, which jsmn lets pass.

**Writer.** `JsonWriter.Printer` is a printer without limits. `Writer` is the bounded one, with its bit mask and depth
counter, and carries a ghost printer that sees the same calls; `Valid()` says that the buffer is a NUL-terminated
prefix of the ideal text, all of it exactly when everything fitted. `RoundTrip.PrintsGrammar` shows that what is printed
is a JSON text, so reading it back (`RoundTrip.WriteAndRead`) follows from the theorems about all JSON texts.

**Request protocol.** In `RpcMachine` each queue operation, each event-group operation and each critical section is one
event; a run is any sequence of events in which each is enabled. Theorems quantify over all runs. Inbound messages are
contiguous from offset 0 and may be cut off by a disconnect or a new message. `RpcService.RequestIsServed` and
`RpcCalls.AnswerIsParsed` show that requests and answers do get through. Assumed of the platform: an answer to a call
begins only after that call was published, and a new call's name differs from the correlation of the answer begun last;
`RpcCalls.NamesDiffer` shows that this rules out no answer to any of the last 2^32 calls. `RpcDevice` has the objects with arrays and shows that the methods of both tasks, run
without interruption, take that machine along a run, up to the bodies the answers are published with.

**Download, logs, configuration, shell** are classes and methods proved against specifications; servers, flash errors,
cancellation, clocks and ring contents are arbitrary.

## Properties that do not hold as one might expect

* A wake-up can be lost inside `call()`: `run_task` takes the request bit together with the connected bit, and
  `on_connected()` calls the platform before the queue is drained. `RpcSignals.BlockedUnsignalledRun` is such a run and
  `RpcSignals.CallBlocksUnsignalledIff` says exactly when it can happen. The request is drained after the call, at the
  latest after its timeout; in `run_task`'s own wait no wake-up is lost.
* A response buffer below 594 bytes, which the configuration allows (256 to 8192), can cut off an error answer:
  `RpcHandler.AlwaysCompleteIff`.
* `log.config` can apply a level that stands outside "tags" when jsmn let a member without a colon pass:
  `LogConfigExample.DecodeAstray`, with the exact condition in `LogConfig.TagMembersIff`.
* A cut-off answer whose root object closes before its last byte (trailing bytes) is accepted:
  `JsmnPrefix.NoProperPrefixAccepted` is an equivalence.
* `Kconfig` says that a request without a free slot is answered "busy"; the code drops it
  (`src/sc_mqtt.cpp:166-170`). The model follows the code.

## Model

| member | source | states |
|---|---|---|
| JsmnParser.Parser.Parse | external/jsmn/jsmn.h:268-453 | the in-place parser returns what the specification says for every text and token count: the number of tokens, counted apart from toknext, and exactly those tokens, or the same error code |
| JsmnParser.Parser.Turn | external/jsmn/jsmn.h:275-441 | one turn of the loop over the array is one specified step, errors and restored positions included |
| JsmnParser.Parser.ParseString | external/jsmn/jsmn.h:193-263 | a string token ends at the first unescaped quote; a wrong escape, a missing quote and a full array give their errors and leave the position where it was |
| JsmnParser.Parser.ParsePrimitive | external/jsmn/jsmn.h:135-188 | a primitive ends at the first delimiter; anything unprintable or a missing delimiter is an error that restores the position |
| JsmnParser.Parser.CloseContainer | external/jsmn/jsmn.h:308-360 | a closing bracket closes the innermost open token if the kinds agree and falls back to the one around it |
| JsmnParser.Parser.Comma | external/jsmn/jsmn.h:379-393 | a comma behind a key's value returns to the innermost open container |
| JsmnForest.StepKeepsForest | external/jsmn/jsmn.h:268-453 | every turn keeps the pre-order forest with exact child counts, open containers and toksuper on the rightmost path, toksuper at or below the innermost open one |
| JsmnForest.EveryStateIsAForest | external/jsmn/jsmn.h:268-453 | so in every state reached on any input, with every span in range and starts strictly increasing |
| JsmnForest.AcceptedIsDocument | external/jsmn/jsmn.h:443-453 | on success all tokens are closed, in range, in text order, a forest, and no more than the array holds |
| JsmnShape.AcceptedShape | external/jsmn/jsmn.h:268-453 | whatever text is accepted: only strings stand below an object, a number or literal behind a key is its first value, brackets match in kind, and every byte up to the first NUL belongs to a token or is white space, a comma or a colon |
| PreorderLists.PreorderIffContiguous | src/sc_json.cpp:248-262 | the pre-order condition says exactly that each subtree is a contiguous run of tokens, which skip() relies on |
| PreorderLists.PendingStep | src/sc_json.cpp:254-261 | skip()'s pending counter is the number of later tokens attached to the part already walked |
| PreorderLists.ForestUnique | external/jsmn/jsmn.h:268-453 | the token kinds and counts determine every token's parent, although this build stores none |
| JsmnPrefix.NoProperPrefixAccepted | external/jsmn/jsmn.h:443-450 | no proper prefix of an accepted document is accepted if and only if its last byte closes the root object |
| JsmnPrefix.AcceptedPrefixIsWhole | external/jsmn/jsmn.h:443-450 | an accepted prefix of a text that ends with its root object is the whole text, whatever the token arrays |
| GrammarTokens.FewerTokens | external/jsmn/jsmn.h:106-119 | a text that needs n tokens is refused with the no-memory error by every smaller array, whatever the text |
| GrammarTokens.TextParses | external/jsmn/jsmn.h:193-453 | every JSON text of RFC 8259, with any white space, escapes and number forms, is cut into exactly its tree's tokens, or refused for lack of memory exactly when they do not fit; only a bare number or literal must not end the text |
| GrammarTokens.StringEndsIff | external/jsmn/jsmn.h:193-263 | a string ends exactly at the first quote behind raw bytes and the escapes of section 7 of RFC 8259, with hex digits in either case |
| GrammarTokens.PrimitiveEndsIff | external/jsmn/jsmn.h:135-188 | a number or literal ends exactly at the first delimiter behind printable bytes |
| GrammarTokens.StringDecodes | src/sc_json.cpp:324-412 | unescaping string contents gives what their pieces stand for, the four hex digits of a code point in order |
| JsonReader.Reader.constructor | src/sc_json.cpp:226 | a new reader holds no document |
| JsonReader.Reader.Parse | src/sc_json.cpp:228-246 | accepts exactly the texts whose first token is an object, tells lack of tokens from malformed text, and otherwise holds nothing |
| JsonReader.Reader.Skip | src/sc_json.cpp:248-262 | the index behind the token's subtree, -1 at the end or for a bad index, for every accepted document |
| JsonReader.Reader.Find | src/sc_json.cpp:271-289 | the value of the first child with that raw key; a child without exactly one value ends the search |
| JsonReader.FindStaysInside | src/sc_json.cpp:271-289 | find() only answers with a token inside the given object's own subtree |
| JsonReader.LookupFirst | src/sc_json.cpp:279-287 | when every member has one value the answer is the first match, and -1 exactly when no key matches |
| JsonReader.Reader.ChildCount | src/sc_json.cpp:296-299 | the true number of children |
| JsonReader.Reader.StrAt | src/sc_json.cpp:324-412 | fails only for a token that is no string or a value that does not fit with its NUL; otherwise writes exactly the decoded bytes |
| JsonReader.EveryStringHasAValue | src/sc_json.cpp:324-412 | every string token of an accepted document decodes |
| JsonReader.Reader.IntAt | src/sc_json.cpp:419-438 | exactly the whole decimal integers of at most 20 characters in the int64 range |
| JsonReader.Reader.GetBool | src/sc_json.cpp:445-462 | the value under the key, only for the literals true and false |
| JsonReader.Reader.GetStr | src/sc_json.cpp:414-417 | the string under the key, when it fits |
| RoundTrip.ScanEscaped | src/sc_json.cpp:55-88 | whatever the bytes, the tokenizer closes an escaped string exactly at the writer's closing quote |
| RoundTrip.DecodeEscaped | src/sc_json.cpp:55-88 | unescaping what was escaped gives the original bytes |
| JsonText.AcceptedStringDecodes | external/jsmn/jsmn.h:193-263 | a string the tokenizer accepts has only escapes that str_at can decode |
| JsonText.UnicodeEscapeDecodes | src/sc_json.cpp:358-398 | a \u escape becomes the UTF-8 of its code point (section 3 of RFC 3629), a surrogate becomes a question mark |
| JsonText.EscapeLength | src/sc_json.cpp:55-88 | escaping never shrinks a text and makes at most six bytes of one |
| JsonText.DecimalRoundTrip | src/sc_json.cpp:177-193 | a printed integer reads back as itself |
| JsonWriter.Writer.constructor | src/sc_json.cpp:18-21 | a new writer has printed nothing, or has overflowed if there is no room for a NUL |
| JsonWriter.Writer.Reset | src/sc_json.cpp:23-32 | starts over, also after an overflow |
| JsonWriter.Writer.Put | src/sc_json.cpp:34-53 | all of a piece or nothing: a piece that does not fit leaves position and buffer as they were, and so does everything after it |
| JsonWriter.Writer.PutEscaped | src/sc_json.cpp:55-88 | the quoted, escaped text, as the unbounded printer prints it |
| JsonWriter.Writer.BeginValue | src/sc_json.cpp:90-102 | a comma exactly when the innermost container already has a value, then the key |
| JsonWriter.Writer.Begin | src/sc_json.cpp:104-137 | opens a container; nesting deeper than 31 is an overflow |
| JsonWriter.Writer.End | src/sc_json.cpp:117-146 | closes one; the mask bits up to the depth stay the stack's non-empty flags |
| JsonWriter.Writer.AddStr | src/sc_json.cpp:156-161 | a string value of any bytes |
| JsonWriter.Writer.AddCStr | src/sc_json.cpp:148-154 | a null pointer is written as null |
| JsonWriter.Writer.AddFmt | src/sc_json.cpp:163-175 | at most 127 bytes of the formatted text; a formatting error is an overflow |
| JsonWriter.Writer.AddInt | src/sc_json.cpp:177-193 | the decimal text |
| JsonWriter.Writer.AddBool | src/sc_json.cpp:195-204 | the literal |
| JsonWriter.Writer.AddHex | src/sc_json.cpp:213-224 | two hex digits a byte, between quotes |
| BitMask.SetBit | src/sc_json.cpp:90-102 | marking one level as non-empty leaves the others' flags |
| BitMask.ClearBit | src/sc_json.cpp:104-115 | entering a level clears its flag and leaves the others |
| JsonTree.EmitIsPrint | src/sc_json.cpp:90-224 | the writer calls for a tree print its text, with commas and keys where they are due, and reach its depth |
| JsonTree.WriteDocument | src/sc_json.cpp:18-224 | writing a tree ends ok exactly when its text is shorter than the buffer and nests at most 31 deep, and then the buffer holds exactly the text and a NUL |
| RoundTrip.DocumentParses | src/sc_json.cpp:228-246 | the text of any written object is cut into exactly its tree's tokens, or refused for lack of tokens exactly when there are more of them than slots |
| RoundTrip.PrintsGrammar | src/sc_json.cpp:55-224 | what the writer's calls print for a tree is a JSON text of that tree |
| RoundTrip.HexDigits | src/sc_json.cpp:213-224 | two lower-case hex digits a byte, the upper half first |
| ReadBack.FindIsGet | src/sc_json.cpp:271-289 | on the object of any JSON text find() gives the value of the first member whose key is spelled so, -1 when there is none |
| ReadBack.ReadValue | src/sc_json.cpp:324-462 | str_at, int_at and get_bool give exactly what a value of any JSON text is, and nothing on a value of another type, on a number with a fraction or exponent or on one beyond int64 |
| ReadBack.ParseIntIff | src/sc_json.cpp:419-438 | int_at() takes exactly decimal digits behind an optional minus for a number, with the value they denote |
| ReadBack.TextIsRead | src/sc_json.cpp:271-462 | following any keys through an accepted JSON text reads the values the text has there |
| ReadBack.ReadText | src/sc_json.cpp:228-462 | parse() accepts every JSON text whose value is an object and whose tokens fit, refuses other values, and find() and the accessors then read it |
| RoundTrip.WrittenIsRead | src/sc_json.cpp:90-462 | round trip: whatever object was written, following keys through its parsed text reads the written strings, integers and booleans, for whatever parents the reader holds |
| RoundTrip.WriteAndRead | src/sc_json.cpp:18-462 | the same through the objects: write into a buffer, parse, call find() along the keys; it fails exactly when the buffer, the depth or the token array is too small |
| RpcOwnership.EveryRun | src/sc_rpc.cpp:78-114 | slots are conserved in every state of every run |
| RpcOwnership.OneOwner | src/sc_rpc.cpp:78-114 | each slot is in exactly one of the two queues or the hands of one task; the tasks never hold the same slot, nor one that is queued |
| RpcOwnership.SendsSucceed | src/sc_rpc.cpp:94-105 | no queue send ever fails, no access is ever unsafe, and a request is refused only while every slot waits or is being handled |
| RpcRequests.ExactlyOnceInOrder | src/sc_rpc.cpp:107-174 | over every run the handled requests are the first of those fully received with a slot, in order; each is the request its message makes, name, correlation and payload byte by byte, and is answered once with the message's own correlation and response topic (up to 64 and 95 bytes; <up>res for none or a foreign one) and a body handle() can have made; what waits in the slots is the rest, NUL-terminated |
| RpcRequests.StepKeeps | src/sc_mqtt.cpp:164-239 | every event of either task keeps that, cut-off and refused requests included |
| RpcRequests.AnySplit | src/sc_mqtt.cpp:219-238 | every contiguous split of a message makes the same request: the whole payload, or too_large with nothing stored |
| RpcRequests.StoreKeepsPartial | src/sc_mqtt.cpp:230-236 | a fragment extends the stored prefix; the last one makes the whole request and terminates it |
| RpcMachine.PurposeIff | src/sc_mqtt.cpp:191-218 | a request is a message on <down>req/<name>, an answer one on <down>res, and nothing else is either |
| RpcMachine.KeptIs | src/sc_mqtt.cpp:164-189 | a slot keeps 47 bytes of the name with dots for slashes, and a correlation of at most 64 and a topic of at most 95 bytes |
| RpcService.RequestIsServed | src/sc_mqtt.cpp:164-239 | a device at rest with a free slot serves a request in whatever fragments: the message's own request reaches its handler and the body goes to the message's own address |
| RpcSignals.StepKeepsWake | src/sc_rpc.cpp:94-114 | only the pass that took the request bit can leave a ready request unsignalled, only the wait of run_task takes that bit, and it takes every bit but the call bit |
| RpcSignals.NoLostWakeup | src/sc_client.cpp:285-304 | in run_task's wait a ready request has its bit set or about to be set; a device at rest has handled and answered everything it accepted |
| RpcSignals.CallBlocksUnsignalledIff | src/sc_client.cpp:291-305 | a call of this pass can block over a ready, unsignalled request exactly when one was ready with its bit taken when the call started |
| RpcSignals.BlockedUnsignalledRun | src/sc_client.cpp:291-305 | a run in which that happens |
| RpcCalls.EveryRunCalls | src/sc_rpc.cpp:176-240 | call_buf[..call_len] is in every state the beginning of an answer to the waiting call |
| RpcCalls.CallsAreIsolated | src/sc_rpc.cpp:198-256 | what a call parses is the beginning of an answer on <down>res begun after that call was published with its name, even after a late bit of an earlier call, and all of it if its last byte closes the root; no message named like another of the last 2^32 calls is among those answers |
| RpcCalls.NamesDiffer | src/sc_rpc.cpp:210 | two calls have different names unless 2^32 calls lie between them |
| RpcCalls.LateAnswerIsIgnored | src/sc_rpc.cpp:176-196 | a message named like an earlier call never changes call_buf, never raises the call bit and never counts as an answer, in whatever fragments and whatever the request task does meanwhile |
| RpcCalls.AnswerIsParsed | src/sc_rpc.cpp:176-256 | in any state in which a call waits, an answer under its name in whatever fragments ends the wait and is parsed |
| RpcCalls.WaitingCallRun | src/sc_rpc.cpp:210-227 | such a state is reached: the connection comes up and a call is started and published |
| RpcDevice.Rpc.constructor | src/sc_rpc.cpp:25-43 | init() puts every slot into the free queue |
| RpcDevice.Rpc.TakeFreeSlot | src/sc_rpc.cpp:78-92 | the first free slot, reset, and no other slot touched |
| RpcDevice.Rpc.StartRequest | src/sc_mqtt.cpp:164-189 | a taken slot holds the dotted method name cut at 47 bytes, a correlation of at most 64 and a topic of at most 95 bytes, and too_large |
| RpcDevice.Rpc.StoreFragment | src/sc_mqtt.cpp:230-236 | exactly the stored fragment, in that slot alone |
| RpcDevice.Rpc.DeliverResponse | src/sc_rpc.cpp:176-196 | only an answer to the waiting call is stored, within the buffer, and only its last fragment sets the bit |
| RpcDevice.Rpc.StartCall | src/sc_rpc.cpp:210-223 | a run of the machine up to the publish: a new call is armed under a new name with nothing stored, and a leftover bit is cleared |
| RpcDevice.Rpc.EndWait | src/sc_rpc.cpp:224-227 | a step of the machine: the wait ends with the call bit, which it takes, or with the timeout |
| RpcDevice.Rpc.FinishCall | src/sc_rpc.cpp:229-255 | a run of the machine, whose parsed documents are those of the calls that succeed or are refused; nothing is stored any more; success exactly for an answered, unclipped, accepted document that says ok, with the token of its result |
| RpcDevice.Rpc.HandleReady | src/sc_rpc.cpp:107-174 | a run of the machine: all waiting requests are handled in order, each answered on its own address with the body handle() made, and their slots are free again |
| RpcDevice.Mqtt.HandleData | src/sc_mqtt.cpp:191-239 | the object ends in the state the machine settles in, whatever the fragment |
| RpcDevice.Mqtt.OnDisconnected | src/sc_mqtt.cpp:137-150 | a disconnect gives a half-filled slot back |
| RpcDevice.SettledIsReached | src/sc_mqtt.cpp:191-239 | that state is reached by a run of the machine |
| RpcHandler.Handle | src/sc_rpc.cpp:116-154 | the published body is the answer's text, or a proper prefix of it when the buffer is too small, for every request and handler |
| RpcAnswer.AnswerReads | src/sc_rpc.cpp:116-154 | what the platform reads in an accepted body: "ok" is true exactly when the request was taken whole, its method is known, its parameters are an object, the handler neither called fail() nor returned an error and the result fits, and "result" then reads back as written; otherwise "error" is what went wrong first, the fail() text or the error's name |
| RpcHandler.FailedLength | src/sc_rpc.cpp:148-152 | an error answer is 23 bytes and the escaped error |
| RpcHandler.AlwaysCompleteIff | src/sc_rpc.cpp:116-154 | every body is a whole {"ok":true,...} or {"ok":false,...} document exactly when the buffer has at least 594 bytes |
| RpcHandler.CutBodyIsNoDocument | src/sc_rpc.cpp:148-153 | a published error body is a document for a reader exactly when its escaped error leaves room for 23 bytes and the NUL |
| Ota.Updater.Run | src/sc_ota.cpp:79-129 | whatever server, flash driver and other tasks do: the boot partition is switched only to exactly size bytes with the expected SHA-256, and iff ESP_OK; a faithful server's image then stands in flash; at most 5 * size connections; reports never go back and stay within 0..100; a cancelled start never switches; and it does succeed when the image is the expected one, fits, nobody cancels, the device works and a faithful server delivers on at least every fifth connection |
| Ota.Updater.Download | src/sc_ota.cpp:131-177 | flash and hash saw the same bytes and their number is the size on success; the loop ends because size - offset, then the attempts left, decrease; it gives up only when cancelled, after a fatal answer or write, or after five connections in a row without progress |
| Ota.Updater.DownloadFrom | src/sc_ota.cpp:179-241 | a connection adds the next bytes to flash and hash alike, or none, and what was in flash stays; only a fatal result may leave more in flash than it reports, and no connection follows one |
| Ota.Updater.Connect | src/sc_ota.cpp:197-208 | exactly a 200 answer is read from byte 0 on and a 206 one further on, at the requested byte; other answers of 400 and more are fatal, the rest is retried |
| Ota.Updater.Start | src/sc_ota.cpp:21-40 | a second start never disturbs a running update, and is no error for the same one |
| Ota.Updater.Cancel | src/sc_ota.cpp:42-49 | only the running update with that task ID is cancelled |
| LogUplink.Uplink.UploadBin | src/sc_log_uplink.cpp:170-217 | the publishes are the items, whole, in order, none lost or repeated, in batches closed by one TIME_SYNC that are within the batch size and as full as can be; oversized items alone in their place; the drop count first |
| LogUplink.Uplink.UploadText | src/sc_log_uplink.cpp:219-252 | the same for lines, without closing packet; no publish is empty |
| LogUplink.CloseBatch | src/sc_log_uplink.cpp:195-199 | closing a batch keeps order and bounds, and the item that did not fit may follow |
| LogUplink.AddItem | src/sc_log_uplink.cpp:206-209 | adding an item keeps them |
| LogUplink.SendAlone | src/sc_log_uplink.cpp:201-205 | so does sending an oversized item on its own |
| LogUplink.DropsAccounted | src/sc_log_uplink.cpp:71-88 | over every interleaving, records started = packets reserved + drops reported + current count, modulo 2^32, and exactly below 2^32 drops |
| LogUplink.Uplink.NothingUnaccounted | src/sc_log_uplink.cpp:71-217 | the same for the object's own packets: records started are published, in the ring, being written, reported in a published DROPPED packet or still counted |
| LogUplink.Uplink.SinkStart | src/sc_log_uplink.cpp:71-94 | a well-formed record while enabled is reserved with its header or counted; any other leaves the count |
| LogUplink.Uplink.SinkPayload | src/sc_log_uplink.cpp:96-107 | payload bytes follow the header, never past the reserved length |
| LogUplink.Uplink.SinkEnd | src/sc_log_uplink.cpp:109-117 | the finished item holds header and payload, clipped to the reserved length |
| LogUplink.Uplink.LogLine | src/sc_log_uplink.cpp:119-140 | a line is stored whole, or cut in place one byte short of the buffer with a line feed at its end, or counted |
| LogConfig.LevelFromName | src/sc_codec.cpp:105-114 | the index of the name among the six levels, or -1 for any other |
| LogConfig.Pass | src/sc_codec.cpp:143-155 | one pass fails at the first bad entry; applying, it has applied exactly the entries before it, in order |
| LogConfig.ApplyTags | src/sc_codec.cpp:143-155 | the second pass repeats the first one's checks and cannot fail |
| LogConfig.Decode | src/sc_codec.cpp:116-157 | for every accepted document: all levels are applied or set_tag is never called, and the settings are those asked for |
| LogConfigText.ConfigIsRead | src/sc_codec.cpp:116-157 | on any JSON text the settings are what it says under "level", "text", "bin" and "tags": level names of up to 15 and tags of up to 31 bytes, and a text with any other level or tags is refused |
| LogConfigText.LevelIff | src/sc_codec.cpp:105-114 | the six names and their levels |
| LogConfig.TagMembersIff | src/sc_codec.cpp:145-154 | the walk visits exactly the members of "tags", each with its own value, if and only if each has one value (the last at least one) |
| LogConfigExample.LevelFromOutsideTags | src/sc_codec.cpp:145-154 | a document jsmn accepts whose walk leaves "tags": for the parents it has, the entries asked for include a level from outside |
| LogConfigExample.DecodeAstray | src/sc_codec.cpp:116-157 | decode_log_config() on that document applies the level from outside |
| Shell.Split | src/sc_shell.cpp:109-114 | the first 16 words of the line, cut out in place |
| Shell.WordsAre | src/sc_shell.cpp:112 | the words of a line are what stands between its spaces, tabs, carriage returns and line feeds |
| Shell.Tokenizer.Next | src/sc_shell.cpp:112 | the next word stands in the line behind earlier ones, NUL-terminated, and the rest of the line is untouched |
| Shell.NameMatches | src/sc_shell.cpp:71-87 | true exactly when the words of the name are the first arguments |
| Shell.MatchIsJoin | src/sc_shell.cpp:71-87 | that is, when the name is the space-join of as many leading arguments as it has words |
| Shell.CountWords | src/sc_shell.cpp:62-69 | the number of words modulo 256, as the byte counts them |
| Shell.CommandTable.Add | src/sc_shell.cpp:89-105 | the table as a map: a known name is replaced, a new one added while there is room |
| Shell.BestIsLongest | src/sc_shell.cpp:119-124 | a match with the most words is the longest name made of leading words, although words are counted in a byte |
| Shell.MatchesDiffer | src/sc_shell.cpp:119-124 | two commands never match the same number of words |
| Shell.CommandTable.Run | src/sc_shell.cpp:107-130 | the outcome depends on the registered names alone, not on their order: the longest matching name with the remaining arguments, or the unknown-command code |
| Shell.OutcomeIff | src/sc_shell.cpp:115-130 | a call has the handler of the longest registered name made of leading words and all the words behind it; the unknown word is the first one, exactly when no name is made of leading words |

## Left out

- Timer and FreeRTOS internals: queues are bounded sequences, the event group a set of bits, ring buffers sequences of whole items; real time and priorities are ignored, timeouts are a free choice.
- NVS storage, enrollment, TLS and credentials; esp-mqtt, the HTTP client, flash and PSA drivers: platform calls without deep state.
- `psa_hash_update` and `psa_hash_finish` are taken to succeed; the hash is an arbitrary function of the bytes.
- `vsnprintf` and `strtoll`: formatted text is a parameter; integers use a decimal print and parse pair.
- Pointers and sizes are unbounded integers; texts, offsets and partitions are taken to be below 2^31, and `call_counter` wraps at 2^32.
- jsmn's counting mode without tokens, parent links and the non-strict grammar: not compiled in or not called.
- `sc_json_reader::raw` and `get_int`, the encoders, `decode_ota_params` and `decode_enroll_response`: short compositions of what is modelled.
- The wait inside `sc_rpc::call`, where other tasks take their turns, is an event of the machine only; `RpcDevice.Rpc.StartCall`, `EndWait` and `FinishCall` are the method before, at the end of and after it.
- Unbalanced use of the writer by a handler: `RpcHandler` takes a handler to write a list of members into "result".
- `add_method` and `find_method`: whether a method is known is a parameter.
- Lost publishes: a publish counts as made when it is attempted.
- on9log packet layout: the header's length and its payload length field, TIME_SYNC and DROPPED packets are parameters with their size bounds.
- Loggers that add items while a drain runs: `LogUplink.Uplink.UploadBin` takes the ring to be the items that drain will receive.
- Shell built-in commands, `sc_shell_out`, status reports, the info and reboot handlers and time sync: straight-line glue.
