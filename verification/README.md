# Hitsuji: a model in Dafny

Hitsuji serves open, high, low and close bars over a market-data bus. Consumer sessions log in and
request items; each request becomes a task for a worker; the worker reads the item name as a URL,
computes a bar and sends a reply, which the provider forwards to the session by its stream token.
Below this lies a vendored utility layer: a JSON printer and parser, histograms with a checksum and
a shared registry, a singleton, a most-recently-used cache, an intrusive list, a URL scanner, a
schema validator, number conversion, a wildcard matcher and the binary codec of the messages.

This project models these parts and proves what they promise, for all inputs, all runs and any
number of threads. `dafny verify dfyconfig.toml` checks it. Objects that the source updates in
place are classes, its loops are loops, and each method is tied to a specification function or
predicate about which the properties are then proved. Protocols and racing threads are step
systems: a state, the events that may happen in it, and an invariant that every step keeps.

| module | what it models |
|---|---|
| NumberConversions | printing and parsing of 32- and 64-bit integers |
| Values, JsonWriter, JsonReader, JsonRoundTrip | the value tree, the printer, the parser, and that one undoes the other |
| JsonGrammar, JsonLexemes, JsonAcceptance, JsonErrors, JsonSpelling | the JSON texts as a grammar, which of them the parser accepts and as what, why it rejects others, and what the printer spells |
| ValuePaths | dotted paths into dictionaries, merging, pruning, comparing |
| ClientSession, StreamProtocol, StreamDrain, Provider | a session, the whole item-stream protocol, the drain at close, the provider object |
| UrlParse, ItemName, Worker | the URL scanner, the item name and its query, one task of a worker |
| Crc, HistogramLayout, Histogram, Registry | the range checksum, bucket layouts, histogram and sample objects, racing registration |
| Singleton | creation by racing threads |
| MruCache, LinkedList | the cache; the ring of nodes and the leak tracker |
| SchemaValidator, Vlog | the validator, the wildcard matcher |
| Sbe | requests and replies in a byte buffer |
| Bars | the tick bar, its rollup form, the close, and rounding |

## What the proofs brought to light

- The drain of `provider_t::Close` with workers still active can wait until the keepalive timers
  end the remaining sessions, although nothing fails. This happens in two cases, and only in them:
  the edge of the reply socket was consumed by the last pass of the event loop while replies were
  left (closing forgets that pass's bit), or a job of a client that has gone is in flight (its
  reply counts as a failure, which clears the bit with replies left).
  `StreamDrain.CloseEndsExactlyWhen` gives the exact condition, and `StreamDrain.DrainCanStick` a
  history from an empty provider. `hitsuji_t::Reset` stops the workers first, so nothing is said
  about a drain there.
- A reply is matched by channel and token only. A client that closes a stream and requests it again
  under the same token while the first task is in flight can be sent the first task's reply;
  `StreamProtocol.FreshStep` says exactly which step opens that window, `StreamDrain.StaleAnswer`
  gives a history.
- Logging out keeps the item streams, and the end of a session drops them only while it is logged in.
- The capacity check at session activation never fires, since the connection was counted first.
- The worker's branch for a malformed request is never taken: behind the fixed prefix a file name
  is always found.
- A provider close that ends never drops a stream: its drain waits until no token is active
  (`StreamProtocol.RunSafety`). Streams of a client that disconnects are simply forgotten.
- Merging dictionaries is idempotent but not associative: the order matters exactly when, somewhere
  under a common path, the middle one holds a plain value, both others hold dictionaries, and the
  last does not absorb the first (`ValuePaths.MergeAssociativeExactlyWhen`).
- Registering a duplicate histogram deletes it but not the range vector it owned, which nothing
  leads to any more; no other registration loses a vector (`Registry.LosesVectorExactlyWhen`).
- Without an active recorder racing threads may each keep a histogram of their own for one name, and
  equal range vectors are not shared; with one neither can happen
  (`Registry.OneHistogramExactlyWhen`, `Registry.SharingExactlyWhen`).
- `FindCorruption` computes the difference of redundant count and total in a 32-bit integer: one too
  low for it is flagged as high. The lowest 32-bit integer goes unflagged if its negation, which C++
  leaves undefined, wraps around (`Histogram.LowestDifferenceMissed` gives such a snapshot).
- The application writes its requests without a group, and they reach the worker intact up to 255
  bytes of item name. With a view they never fit the buffer it allocates, and the worker would take
  the group header for the item name.
- `Parsed::Length` is the end of the trimmed text exactly under the condition of
  `UrlParse.LengthIsEnd`; for text with nothing behind the slashes it reports less.
- The counts and lengths of the binary messages have one byte, so messages round-trip exactly up to
  255 field ids and 255 bytes.
- The parser cannot decode `\u` escapes, so the JSON round trip holds exactly for trees whose
  strings the printer never escapes that way and whose height is at most 100. The printed text
  itself denotes the tree whatever is in its strings (`JsonSpelling.PrintedDenotes`).
- The parser takes a NUL outside of strings and comments for the end of the text, so anything may
  follow it, and a comment that is never closed may end a text (`JsonAcceptance.ReadsExactlyWhen`).

## Model

| member | source | states |
|---|---|---|
| `JsonRoundTrip.RoundTrip` | src/chromium/json/json_reader.cc:153-357 | For every list- or dictionary-rooted tree without doubles, compact or pretty, reading the printed text gives the tree back if and only if every string and key consists of printable ASCII without angle brackets and of backspace, tab, line feed, form feed and carriage return, and the height is at most 100. |
| `JsonRoundTrip.TallTreeRejected` | src/chromium/json/json_reader.cc:205-211 | A taller tree of otherwise printable strings is rejected as too much nesting. |
| `JsonRoundTrip.ReadsWritten` | src/chromium/json/json_reader.cc:153-357 | For every tree without doubles, whatever its root: the tree, or the error of the first place, in document order, that the parser cannot take. |
| `JsonRoundTrip.ReadsValue` | src/chromium/json/json_reader.cc:205-357 | Wherever in a text a printed value stands, at whatever depth, the parser builds that value and stops right behind it. |
| `JsonRoundTrip.FirstErrorMeaning` | src/chromium/json/json_reader.cc:205-211 | The first error is absent exactly for trees of decodable strings within the nesting limit; with decodable strings it can only be the nesting limit. |
| `JsonRoundTrip.QuotedToken` | src/chromium/json/json_reader.cc:410-516 | A printed string is a single token of its full length and decodes to the string, or to nothing if it holds a `\u` escape. |
| `JsonRoundTrip.BuildSound` | src/chromium/json/json_reader.cc:205-357 | Whatever the text, a value the parser accepts has ordered dictionaries with distinct keys and fits the nesting limit. |
| `JsonRoundTrip.AcceptedRoundTrips` | src/chromium/json/json_writer.cc:33-222 | A container without doubles that the parser accepted, whatever text it came from, is the same after printing and reading it again if and only if no string in it needs a `\u` escape. |
| `JsonRoundTrip.WriteThenRead` | src/chromium/json/json_writer.cc:33-222 | The printer object and the parser object one after the other: equal trees exactly under the condition above. |
| `JsonAcceptance.ReadsExactlyWhen` | src/chromium/json/json_reader.cc:153-357 | For every text and value: the parser accepts the text as that value if and only if the text is in the grammar, within 100 levels, and denotes the value, and the value is a list or dictionary where the root is checked. The grammar is section 2 of RFC 4627 with comments, `\x` and `\v`, a leading byte-order mark, a NUL as the end, and trailing commas only where allowed. |
| `JsonAcceptance.Unambiguous` | src/chromium/json/json_reader.cc:153-194 | No text denotes two values. |
| `JsonAcceptance.ValueReads` | src/chromium/json/json_reader.cc:205-357 | Wherever a legal value within the nesting limit is spelled, the parser builds what it means and stops right behind it. |
| `JsonAcceptance.ValueOf` | src/chromium/json/json_reader.cc:205-357 | Wherever the parser builds a value, blanks and a legal spelling of that value stand there, within the nesting limit. |
| `JsonLexemes.EndExactlyWhen` | src/chromium/json/json_reader.cc:587-640 | The end of the input is met if and only if blanks are followed by the end of the text, a NUL, or a comment that is not closed. |
| `JsonLexemes.TextReads` | src/chromium/json/json_reader.cc:410-516 | A legal string is one token and decodes to its meaning. |
| `JsonLexemes.TextOf` | src/chromium/json/json_reader.cc:410-516 | A token that was decoded spells a legal string with that meaning. |
| `JsonLexemes.NumeralReads` | src/chromium/json/json_reader.cc:359-394 | A legal number is read to its end where nothing follows that could belong to it. |
| `JsonLexemes.NumeralOf` | src/chromium/json/json_reader.cc:359-394 | What is read as a number is one: optional minus, no superfluous zero, optional fraction and exponent. |
| `JsonLexemes.NumeralDecodes` | src/chromium/json/json_reader.cc:396-408 | A number without fraction and exponent in the 32-bit range is that integer; any other is left to the conversion to double. |
| `JsonGrammar.GatheredIs` | src/chromium/json/json_reader.cc:289-344 | A dictionary has each key once, in order, with the value of its last pair. |
| `JsonErrors.TrailingCommaRejected` | src/chromium/json/json_reader.cc:266-274 | A text that denotes a value only if commas may trail is rejected for its trailing comma. |
| `JsonErrors.NestingRejected` | src/chromium/json/json_reader.cc:205-211 | A text that denotes a value only to a reader that goes deeper than 100 levels is rejected for its nesting. |
| `JsonErrors.RootRejected` | src/chromium/json/json_reader.cc:213-219 | A text that denotes a scalar is rejected for its root where the root is checked. |
| `JsonErrors.MoreRejected` | src/chromium/json/json_reader.cc:180-188 | A text that goes on behind its root is rejected for that. |
| `JsonErrors.KeyRejected` | src/chromium/json/json_reader.cc:289-297 | A dictionary that begins with anything but a quote or its closing brace is rejected for its key. |
| `JsonErrors.EscapeRejected` | src/chromium/json/json_reader.cc:410-453 | A string with a letter behind a backslash that is no escape is rejected for its escape. |
| `JsonSpelling.PrintedDenotes` | src/chromium/json/json_writer.cc:33-222 | For every tree without doubles whose strings are bytes, compact or pretty, the printed text is in the grammar with `\u` escapes and denotes the tree, within as many levels as the tree is high. |
| `JsonSpelling.QuoteIs` | src/chromium/json/string_escape.cc:52-77 | A printed string spells legal pieces that mean the string, whatever bytes it holds. |
| `JsonSpelling.Hex4Denotes` | src/chromium/json/string_escape.cc:62-67 | The four digits behind `\u` denote the character. |
| `JsonWriter.QuoteHarmless` | src/chromium/json/string_escape.cc:52-77 | Nothing but printable ASCII and no angle bracket is printed for a string. |
| `JsonWriter.WriteWithOptions` | src/chromium/json/json_writer.cc:33-62 | The printer's output is the rendered text of the tree with the pretty line ending. |
| `JsonWriter.JsonWriter.BuildJSONString` | src/chromium/json/json_writer.cc:64-222 | Every branch appends exactly the rendered text of its value and touches nothing before it. |
| `JsonWriter.JsonWriter.AppendItems` | src/chromium/json/json_writer.cc:134-163 | The loop over a list appends items and separators in order. |
| `JsonWriter.JsonWriter.AppendEntries` | src/chromium/json/json_writer.cc:165-209 | The loop over a dictionary appends keys, colons, values and line breaks in key order. |
| `JsonWriter.JsonDoubleQuote` | src/chromium/json/string_escape.cc:53-77 | The pushing loop appends the quoted, escaped string, of printable ASCII only and without angle brackets. |
| `JsonReader.JsonReader.EatComment` | src/chromium/json/json_reader.cc:608-640 | The two comment loops end where the comment ends, an unterminated one at the end of the text, and move nothing if there is none. |
| `JsonReader.JsonReader.EatWhitespaceAndComments` | src/chromium/json/json_reader.cc:587-606 | The position moves to the first character that is no blank and starts no comment. |
| `JsonReader.JsonReader.ParseStringToken` | src/chromium/json/json_reader.cc:410-453 | The growing token is the string up to its closing quote; a bad escape sets the error. |
| `JsonReader.JsonReader.ParseToken` | src/chromium/json/json_reader.cc:518-585 | Lookahead: the position moves over blanks only and the token is not consumed. |
| `JsonReader.JsonReader.DecodeStringToken` | src/chromium/json/json_reader.cc:455-516 | The decoding loop gives the unescaped string, or fails at a `\u` escape. |
| `JsonReader.JsonReader.BuildValue` | src/chromium/json/json_reader.cc:205-357 | The recursive descent over position, depth and error fields gives the specified outcome and restores the depth on success. |
| `JsonReader.JsonReader.JsonToValue` | src/chromium/json/json_reader.cc:153-194 | Byte-order mark, root check, trailing data and error fields give the specified result. |
| `Values.SetThenGet` | src/chromium/values.cc:406-417 | Setting a key changes what that key, and no other, maps to. |
| `Values.SetEntrySorted` | src/chromium/values.cc:406-417 | Setting keeps the keys ordered and distinct. |
| `ValuePaths.GetAfterSet` | src/chromium/values.cc:365-387 | For any two paths: after setting at one, the other leads to the new value or into it, to the updated dictionary above it, or to what was there before. |
| `ValuePaths.GetAfterRemove` | src/chromium/values.cc:637-667 | The same after a removal, below whose path there is nothing. |
| `ValuePaths.RemoveUndoesSet` | src/chromium/values.cc:637-667 | Removing what was set gives back the former dictionary if and only if the path led to an absent key of an existing dictionary. |
| `ValuePaths.GetAfterMerge` | src/chromium/values.cc:674-692 | After merging, any path leads to the merged-in value where there is one, to nothing where the merged-in dictionary has something in the way, and otherwise to what was there before. |
| `ValuePaths.MergeIdempotent` | src/chromium/values.cc:674-692 | Merging the same dictionary once more changes nothing. |
| `ValuePaths.MergeAbsorbs` | src/chromium/values.cc:674-692 | Merging a dictionary in leaves nothing of the other if and only if it has every key of the other, and so at every level where both hold dictionaries. |
| `ValuePaths.MergeAssociativeExactlyWhen` | src/chromium/values.cc:674-692 | For all well-formed dictionaries the order of two merges is immaterial if and only if nowhere under a common path the middle one holds a plain value between two dictionaries of which the last does not absorb the first. |
| `ValuePaths.MergeNotAssociative` | src/chromium/values.cc:674-692 | Three dictionaries for which it does matter. |
| `ValuePaths.PrunedIs` | src/chromium/values.cc:19-61 | A copy without empty children exists exactly if the tree has a value that is no container, holds nothing empty, and equals the original exactly if that held nothing empty. |
| `ValuePaths.GetAfterPrune` | src/chromium/values.cc:19-61 | Every path leads to the pruned form of what it led to before. |
| `ValuePaths.KeysOfJoined` | src/chromium/values.cc:365-387 | Keys without dots are recovered from the path that joins them. |
| `ValuePaths.Get` | src/chromium/values.cc:419-437 | Cutting the path off key by key finds what the keys lead to. |
| `ValuePaths.Equals` | src/chromium/values.cc:706-730 | The parallel walk over two well-formed trees decides equality. |
| `ValuePaths.CopyWithoutEmptyChildren` | src/chromium/values.cc:19-61 | The copying loops give the pruned tree. |
| `ValuePaths.MergeInto` | src/chromium/values.cc:674-692 | The loop over the keys with its recursion gives the merged dictionary. |
| `ValuePaths.DictionaryValue.Set` | src/chromium/values.cc:365-387 | The object holds the updated dictionary, keys ordered and distinct at every level. |
| `ValuePaths.DictionaryValue.Remove` | src/chromium/values.cc:637-667 | The object loses the last key only, and returns what was there. |
| `ValuePaths.DictionaryValue.MergeDictionary` | src/chromium/values.cc:674-692 | The object becomes the merged dictionary. |
| `NumberConversions.IntToString` | src/chromium/string_number_conversions.cc:66-98 | For every value of the width, the minimum included, the buffer is large enough and filled from the back with the shortest decimal text. |
| `NumberConversions.ToUnsignedIsMagnitude` | src/chromium/string_number_conversions.cc:34-46 | Under wrap-around negation the unsigned magnitude is right for every value, the minimum included. |
| `NumberConversions.BufferFits` | src/chromium/string_number_conversions.cc:66-74 | Three characters a byte leave room for every magnitude and its sign. |
| `NumberConversions.ParseMagnitude` | src/chromium/string_number_conversions.cc:203-271 | The digit loop saturates at the first overflow, accepts exactly non-empty digit strings in range, and no step leaves the type. |
| `NumberConversions.StringToInt` | src/chromium/string_number_conversions.cc:171-195 | Success exactly for an optional sign and digits whose value fits, with that value; otherwise the saturated value of the leading digits. |
| `NumberConversions.LeadingSpaceInvalid` | src/chromium/string_number_conversions.cc:171-183 | Leading white space is skipped but makes the text invalid. |
| `NumberConversions.IntRoundTrip` | src/chromium/string_number_conversions.cc:66-98 | The printed text of every value denotes exactly that value. |
| `NumberConversions.PrintThenParse` | src/chromium/string_number_conversions.cc:171-271 | Parsing what the printer produced succeeds and returns the value, for both widths. |
| `ClientSession.MessageKeepsBalance` | src/client.cc:156-318 | No message loses a token: those inserted are outstanding, taken by replies, closed, or dropped, each once. |
| `ClientSession.ReplyKeepsBalance` | src/client.cc:976-1017 | A reply takes its token once, whether or not copying and submitting succeed. |
| `ClientSession.CloseKeepsBalance` | src/client.cc:130-153 | The end of a session drops what is outstanding and nothing else. |
| `ClientSession.AnswersWithinRequests` | src/client.cc:976-1017 | A token is answered no more often than it was requested, and less often while it is outstanding. |
| `ClientSession.StreamsAfterMessage` | src/client.cc:156-318 | For every message: a stream is there afterwards if and only if it was and was not closed, or it was requested now and the session is logged in; its request is the one that opened it. |
| `ClientSession.LoginAfterMessage` | src/client.cc:249-318 | A session is logged in afterwards if and only if the message is a well-formed login that was answered, or it was and the message is no logout. |
| `ClientSession.HandedOnExactlyWhen` | src/client.cc:815-912 | A task is handed on if and only if an item without a stream is requested, the session is logged in, and the task could be sent. |
| `ClientSession.AbortsExactlyWhen` | src/client.cc:156-228 | The connection is aborted if and only if something was to be sent and could not be. |
| `ClientSession.StreamsAfterReply` | src/client.cc:976-1017 | A reply ends the stream of its token and no other, and is submitted at most there. |
| `ClientSession.EndOfSession` | src/client.cc:130-153 | At its end a session is logged out and keeps streams only if it was so before. |
| `ClientSession.Client.OnLogin` | src/client.cc:249-318 | A login is effective only when well formed and answered. |
| `ClientSession.Client.OnItem` | src/client.cc:815-912 | A new token is inserted before the task is handed on; a reissue and a request without login change nothing. |
| `ClientSession.Client.OnClose` | src/client.cc:1019-1114 | An item close removes its token while logged in; a logout forgets the login and keeps the streams. |
| `ClientSession.Client.Reply` | src/client.cc:976-1017 | The token is given up first; a reply to a token that is gone is dropped and succeeds. |
| `ClientSession.Client.Close` | src/client.cc:130-153 | Streams are dropped only while logged in. |
| `StreamProtocol.RunSafety` | src/provider.cc:121-243 | After every run from an empty provider: connections within capacity; the ledger of every session adds up, whether it goes on, was cut off or was closed, and none has dropped a token; and as long as no worker failed each outstanding token has its own task or reply in flight, exactly one. |
| `StreamProtocol.StepKeepsInv` | src/provider.cc:411-530 | Every step keeps the whole invariant: admission, ledgers, distinct jobs, coverage of waiting tokens, wiring of the reply edge. |
| `StreamProtocol.SubmitsOnlyOutstanding` | src/provider.cc:355-371 | A step submits a reply on a stream exactly when it reads one for a token then outstanding, which it then no longer is; no other step submits any. |
| `StreamProtocol.OnlyLoggedInServed` | src/client.cc:815-912 | Over every run from an empty provider: a client that waits for a reply has sent a well-formed login that was answered since its session began, and no task or reply stems from a client that never did. |
| `StreamProtocol.SessionOrigin` | src/client.cc:249-318 | A session that is logged in or waits for replies after a step did so before, unless the step is its login. |
| `StreamProtocol.ConnectionsAfter` | src/provider.cc:541-552 | A connection comes if and only if it is accepted below capacity by a running provider, and goes if and only if it disconnects, could not be sent an answer, or the provider has closed. |
| `StreamProtocol.ClientsAfter` | src/provider.cc:786-810 | The same for sessions, which begin when their connection is initialised. |
| `StreamProtocol.EdgeAfter` | src/hitsuji.cc:395-436 | When the reply descriptor is signalled and its bit set: the first read takes the signal, and the bit stays if and only if replies are left and the last one did not fail. |
| `StreamProtocol.JobsMove` | src/hitsuji.cc:271-436 | A job is created only by a request that is handed on, and afterwards only moves between queues, workers, loss and completion. |
| `StreamProtocol.SecondCapacityCheckNeverFires` | src/provider.cc:786-810 | A connection that was admitted is never turned away for capacity when it becomes active. |
| `StreamProtocol.FreshStep` | src/client.cc:815-912 | A step makes some job in flight stale if and only if it opens a stream whose channel and token still have a job in flight. |
| `StreamProtocol.EveryAnswerIsOwn` | src/hitsuji.cc:377-436 | In every run without such a step each reply answers the very request it was computed for. |
| `StreamDrain.CloseEndsExactlyWhen` | src/provider.cc:121-177 | Closing while tokens are outstanding surely ends, however workers and loop take turns, if and only if the reply edge is unconsumed when replies wait and no job is for a client that has gone. |
| `StreamDrain.DrainEndsExactlyWhen` | src/provider.cc:139-177 | The same for any state of the drain. |
| `StreamDrain.ProgressBounded` | src/provider.cc:139-177 | Without failures the drain takes a bounded number of steps. |
| `StreamDrain.NeverIdle` | src/provider.cc:139-177 | While a token is outstanding and the loop will hear of waiting replies, something can be done. |
| `StreamDrain.SpentIsDone` | src/provider.cc:139-177 | Under the condition, a drain that can go no further has answered every token. |
| `StreamDrain.DoneStaysDone` | src/provider.cc:139-177 | Once a closing provider has no token active, none becomes active again, whatever happens and whatever fails. |
| `StreamDrain.OrphanedDrainSticks` | src/hitsuji.cc:395-436 | With a job for a client that has gone there is a failure-free course that stops with a token outstanding. |
| `StreamDrain.DeafDrainSticks` | src/provider.cc:139-177 | With the edge consumed and replies left likewise. |
| `StreamDrain.DrainCanStick` | src/provider.cc:121-177 | From an empty provider there is a run to such a state. |
| `StreamDrain.StaleCanBeDelivered` | src/hitsuji.cc:377-436 | Every stale job in flight can be delivered as the answer to the newer request. |
| `StreamDrain.StaleAnswer` | src/client.cc:1065-1114 | From an empty provider there is a run in which a reply answers a request it was not computed for. |
| `Provider.Provider.OnConnection` | src/provider.cc:541-552 | The object mirrors the protocol step: refused when closing or full, added when accepted. |
| `Provider.Provider.OnActiveClientSession` | src/provider.cc:786-810 | A session is created only while accepting and below capacity. |
| `Provider.Provider.AcceptClientSession` | src/provider.cc:1017-1074 | A client is entered only when its initialisation succeeded. |
| `Provider.Provider.Remove` | src/provider.cc:411-530 | Connection and session go together. |
| `Provider.Provider.OnMessageFrom` | src/provider.cc:923-1002 | A message changes its own session only, and a failed handler removes the connection. |
| `Provider.Provider.SendReply` | src/provider.cc:355-371 | A reply for a missing client fails; otherwise only that client changes. |
| `Provider.Provider.OnRead` | src/hitsuji.cc:395-436 | Whichever calls to the reply socket fail, the object is left as the protocol says; the result is true only if a reply was answered and more are known to wait. |
| `Provider.Provider.OnReply` | src/hitsuji.cc:377-393 | One reply is taken from the queue and answered. |
| `Provider.TurnIsRun` | src/hitsuji.cc:395-436 | A turn at the reply socket, with any pattern of failing calls, is one protocol step or two. |
| `Provider.Provider.PumpReplies` | src/provider.cc:411-530 | The bit of the reply socket is kept only if more replies are known to wait. |
| `Provider.Provider.CloseSessions` | src/provider.cc:179-243 | Every session ends as its own close says, in any order, and neither sessions nor connections are left. |
| `Worker.Worker.OnTask` | src/worker.cc:177-357 | Exactly one reply for a task unless the worker ends, under the handle and token of the task: not found if and only if the symbol is missing, not entitled if and only if it is there and entitlement failed, an internal error if and only if these succeeded and calculation or writing failed, the payload if and only if all succeeded. The references test, rollup and close choose those analytics and any other or none the bar; the one chosen is reset and then reads the query, but for the test one. |
| `Worker.Worker.Decompose` | src/worker.cc:206-247 | Symbol, query and reference taken from the URL are those of the item name. |
| `Worker.Worker.SendReply` | src/worker.cc:255-389 | The same four answers; a failure to write a close or to send ends the worker, and nothing else does. |
| `ItemName.DecomposesExactlyWhen` | src/worker.cc:206-247 | Composing symbol, query and reference and decomposing the prefixed name gives them back if and only if the symbol has none of slash, backslash, semicolon, question mark and hash, the query has no hash, and the name does not end in a trimmed character. |
| `ItemName.DecomposedIs` | src/worker.cc:206-247 | For every item name: the pieces in terms of the name alone, and a file name is always found. |
| `ItemName.DecomposedText` | src/worker.cc:206-247 | Every item name is directory, symbol, parameters, query, reference and what is trimmed, one after the other: the first hash, the first question mark before it, the last semicolon before that and the last slash before that separate them. |
| `ItemName.ExtractFileName` | src/googleurl/url_parse.cc:490-526 | The two backward searches give the part after the last slash up to the last semicolon. |
| `ItemName.ExtractQueryKeyValue` | src/googleurl/url_parse.cc:528-564 | The scan yields key and value of the next pair and advances the query past it. |
| `ItemName.ScanIsCut` | src/googleurl/url_parse.cc:529-564 | What the scan finds is the first piece before an ampersand, cut at its first equals sign. |
| `ItemName.CutIs` | src/googleurl/url_parse.cc:529-564 | A piece is key and value around its first equals sign, or a key with an empty value. |
| `ItemName.SplitRejoins` | src/googleurl/url_parse.cc:529-564 | The pieces have no ampersand and joined by ampersands are the query. |
| `ItemName.PeriodMeans` | src/vta_bar.cc:61-94 | The opening time is the value of the last pair with the key open, the closing time that of the last with close; a missing key changes nothing. |
| `ItemName.ParseRequest` | src/vta_bar.cc:61-94 | The loop ends and leaves the values of the last pairs with the two keys, over exactly the pieces of the query with only an empty last piece dropped. |
| `ItemName.PairsStep` | src/googleurl/url_parse.cc:529-564 | Taking a pair off the front leaves the pairs of the remaining query. |
| `ItemName.PairsOfJoined` | src/googleurl/url_parse.cc:529-564 | Joining pairs without separators in them and splitting gives back the pairs. |
| `UrlParse.Lossless` | src/googleurl/url_parse.cc:67-334 | For every text, all components lie in the trimmed text, in order and disjoint, and rejoining them with their separators gives the trimmed text. |
| `UrlParse.ComponentsFree` | src/googleurl/url_parse.cc:67-334 | Which characters a component may not have: a scheme no colon, authority parts no slash, question mark or hash, a user name no colon, host and port no at sign, a port no colon or bracket and none of an IPv6 literal, a path no question mark or hash, a query no hash; there is a scheme if and only if there is a colon; and a path starts with a slash behind an authority that is not empty. |
| `UrlParse.TrimmedIs` | src/googleurl/url_parse_internal.h:46-65 | Only characters up to the blank and above 127 are trimmed, and all of them at either end. |
| `UrlParse.LengthIsEnd` | src/googleurl/url_parse.cc:607-674 | The reported length is the end of the trimmed text exactly unless nothing follows the slashes. |
| `UrlParse.ParseStandardURL` | src/googleurl/url_parse.cc:284-334 | The scanner's components are the specified ones, for every text. |
| `UrlParse.ParseAuthority` | src/googleurl/url_parse.cc:141-173 | The last @ separates user and server. |
| `UrlParse.ParseServerInfo` | src/googleurl/url_parse.cc:91-138 | The last colon starts the port unless it lies inside brackets. |
| `UrlParse.ParseUserInfo` | src/googleurl/url_parse.cc:68-88 | The first colon separates name and password. |
| `UrlParse.ParsePath` | src/googleurl/url_parse.cc:177-240 | The first hash starts the reference, the first question mark before it the query. |
| `UrlParse.ExtractScheme` | src/googleurl/url_parse.cc:245-277 | The scheme is what precedes the first colon, if there is one. |
| `UrlParse.TrimURL` | src/googleurl/url_parse_internal.h:46-66 | The kept range starts at the first and ends behind the last character that is not trimmed. |
| `UrlParse.CountConsecutiveSlashes` | src/googleurl/url_parse_internal.h:70-77 | Counts the run of slashes of either kind. |
| `UrlParse.ParsePort` | src/googleurl/url_parse.cc:447-487 | The value of the digits if they denote a port; unspecified when absent, invalid otherwise, however many leading zeros. |
| `Crc.OneChangeShows` | src/chromium/metrics/histogram.cc:457-464 | Changing any single entry of a vector of any length changes its checksum. |
| `Crc.ChecksumFeeds` | src/chromium/metrics/histogram.cc:457-464 | A vector is fed entry by entry from the front, each with 32 divisions by the polynomial. |
| `Crc.Crc32Injective` | src/chromium/metrics/histogram.cc:490-515 | The checksum step tells entries apart under equal sums and sums apart under equal entries. |
| `Crc.Crc32` | src/chromium/metrics/histogram.cc:490-515 | Four table steps over the bytes of an entry are 32 divisions by the polynomial of sum and entry combined. |
| `Crc.TableIsPolynomial` | src/chromium/metrics/histogram.cc:24-68 | Each of the 256 table entries is its index divided by the polynomial eight times. |
| `Crc.ByteStepShifts` | src/chromium/metrics/histogram.cc:490-515 | A table step is eight one-bit steps of the polynomial. |
| `Crc.WordInjective` | src/chromium/metrics/histogram.cc:490-515 | Different 32-bit integers have different words. |
| `Crc.WordBits` | src/chromium/metrics/histogram.cc:490-515 | The word of an integer holds the bits of its value modulo two to the 32. |
| `HistogramLayout.ExponentialIsLayout` | src/chromium/metrics/histogram.cc:352-377 | For every accepted minimum, maximum and bucket count the boundaries increase strictly from 0 and the minimum to the maximum and the guard. |
| `HistogramLayout.LeavesRoom` | src/chromium/metrics/histogram.cc:352-377 | Each step leaves at least as much room below the maximum as buckets are left. |
| `HistogramLayout.Bernoulli` | src/chromium/metrics/histogram.cc:352-377 | The inequality behind it. |
| `HistogramLayout.RoundedRoot` | src/chromium/metrics/histogram.cc:360-373 | The integer rule of the model is the rounded real root of the code. |
| `HistogramLayout.ExponentialStep` | src/chromium/metrics/histogram.cc:352-377 | From every boundary to the next: the root of the ratio that is left, rounded to the nearest integer with halves going up, or one more than the boundary where that is no step; in integers, for every layout. |
| `HistogramLayout.ExponentialStepRoot` | src/chromium/metrics/histogram.cc:352-377 | The same in terms of the real root. |
| `HistogramLayout.LinearIsLayout` | src/chromium/metrics/histogram.cc:718-729 | The same layout property for linear boundaries. |
| `HistogramLayout.LinearNearest` | src/chromium/metrics/histogram.cc:718-729 | Every boundary is the nearest integer to its place on the line from minimum to maximum, halves going up. |
| `HistogramLayout.EnumerationBuckets` | src/chromium/metrics/histogram.hh:173-176 | The boundaries of an enumeration histogram are the values themselves. |
| `Histogram.EnumerationInBucket` | src/chromium/metrics/histogram.hh:173-176 | A value below the boundary of an enumeration lies in the bucket of its own number and no other, and every larger value in that of the boundary. |
| `Histogram.Histogram.constructor` | src/chromium/metrics/histogram.cc:307-318 | A new histogram has its layout, its checksum and no samples. |
| `Histogram.Histogram.InitializeBucketRange` | src/chromium/metrics/histogram.cc:352-377 | The loop writes the exponential boundaries in place. |
| `Histogram.Histogram.InitializeLinearRange` | src/chromium/metrics/histogram.cc:718-729 | The loop writes the linear boundaries in place. |
| `Histogram.Histogram.CalculateRangeChecksum` | src/chromium/metrics/histogram.cc:457-464 | The loop computes the checksum of the boundaries without the guard, starting from their number. |
| `Histogram.Histogram.BucketIndex` | src/chromium/metrics/histogram.cc:383-406 | The binary search ends in the bucket that holds the value. |
| `Histogram.Histogram.Add` | src/chromium/metrics/histogram.cc:126-135 | The value, or 0 or the largest sample where it is no sample, joins the samples; every count stays the number of values in its interval. |
| `Histogram.ClampNearest` | src/chromium/metrics/histogram.cc:126-130 | A value that is no sample counts as the nearest one that is, any other as itself. |
| `Histogram.Histogram.AddAll` | src/chromium/metrics/histogram.cc:126-135 | The same after any sequence of values. |
| `Histogram.Histogram.FindCorruption` | src/chromium/metrics/histogram.cc:225-267 | The flags are exactly: wrong checksum; a negative first boundary or one that is not above the one before; and a count difference above 1, or below -1, in 32-bit arithmetic. |
| `Histogram.CountsUnflaggedExactlyWhen` | src/chromium/metrics/histogram.cc:241-265 | The counts pass if and only if the difference is within the tolerance or is the lowest 32-bit integer. |
| `Histogram.LowestDifferenceMissed` | src/chromium/metrics/histogram.cc:241-265 | For every layout a snapshot of 32-bit counts with that difference exists. |
| `Histogram.Histogram.CheckSelf` | src/chromium/metrics/histogram.cc:225-267 | A histogram that has only been added to shows no corruption. |
| `Histogram.BucketUnique` | src/chromium/metrics/histogram.cc:383-406 | Only one bucket holds a value. |
| `Histogram.CountsTotal` | src/chromium/metrics/histogram.cc:613-621 | The counts add up to the number of values added. |
| `Histogram.OverwriteShows` | src/chromium/metrics/histogram.cc:225-267 | Overwriting any one boundary with anything else is reported. |
| `Histogram.SubtractUndoesAdd` | src/chromium/metrics/histogram.cc:623-642 | Subtracting a sample set that was added gives back the former contents. |
| `Histogram.PlusJoinsLogs` | src/chromium/metrics/histogram.cc:623-629 | Adding the samples of two histories gives the samples of the joint history. |
| `Histogram.SampleSet.Add` | src/chromium/metrics/histogram.cc:623-629 | Adds sum, redundant count and every bucket, also of the set to itself. |
| `Histogram.SampleSet.Subtract` | src/chromium/metrics/histogram.cc:631-642 | Subtracts them, likewise. |
| `Histogram.SampleSet.TotalCount` | src/chromium/metrics/histogram.cc:613-621 | The sum of all counts. |
| `Registry.OneHistogramPerName` | src/chromium/metrics/histogram.hh:118-132 | With an active recorder, in every interleaving all threads that have a histogram for a name have the same one. |
| `Registry.OneHistogramExactlyWhen` | src/chromium/metrics/histogram.cc:922-952 | All interleavings agree so if and only if the recorder is active. |
| `Registry.SharingIsInvisible` | src/chromium/metrics/histogram.cc:954-993 | With an active recorder, in every interleaving two histograms in use share their vector exactly when their boundaries are equal, and each has the boundaries it was built with. |
| `Registry.SharingExactlyWhen` | src/chromium/metrics/histogram.cc:954-993 | All interleavings share so if and only if the recorder is active. |
| `Registry.StepKeepsInv` | src/chromium/metrics/histogram.hh:118-132 | Every step of every thread keeps the registry sound, tentative histograms private, and the static pointers in agreement with the registry. |
| `Registry.RegisterKeeps` | src/chromium/metrics/histogram.cc:922-993 | Registration replaces no entry, changes no boundary, and its result is what the name leads to. |
| `Registry.LosesVectorExactlyWhen` | src/chromium/metrics/histogram.cc:922-952 | Registration leaves the range vector of its argument unreachable if and only if the recorder is active and the name is taken. |
| `Registry.SharedExactlyWhenEqual` | src/chromium/metrics/histogram.cc:954-993 | Two registered histograms point to the same vector exactly when their vectors are equal. |
| `Registry.StatisticsRecorder.RegisterOrDeleteDuplicate` | src/chromium/metrics/histogram.cc:922-952 | The recorder object's maps change as specified. |
| `Registry.StatisticsRecorder.RegisterOrDeleteDuplicateRanges` | src/chromium/metrics/histogram.cc:954-993 | The search through the list of one checksum shares an equal vector or registers the new one. |
| `Registry.StatisticsRecorder.FindHistogram` | src/chromium/metrics/histogram.cc:1046-1058 | Finds exactly the histogram registered under the name. |
| `Singleton.OneInstance` | src/chromium/memory/singleton.hh:227-262 | With objects from the heap, in every interleaving of any number of threads whose exits find no call under way, all calls completed between two exits return the same pointer, and an object was constructed at it between those exits. |
| `Singleton.OneCreator` | src/chromium/memory/singleton.cc:12-28 | At most one thread creates the object at a time, and a waiting thread is released when none does. |
| `Singleton.StaticOnce` | src/chromium/memory/singleton.hh:100-119 | With static memory the constructor is called at most once in the process, calls that end before the first exit return the static buffer, and those that end after it return NULL, even if they were under way when it happened. |
| `Singleton.LogIsComplete` | src/chromium/memory/singleton.hh:227-262 | What a thread is about to return stands in the log of calls these speak of. |
| `Singleton.StepKeepsInv` | src/chromium/memory/singleton.hh:227-262 | The invariant behind these. |
| `MruCache.RunOrdered` | src/chromium/memory/mru_cache.hh:90-158 | After any operations the list is in order of the last Put or Get, and within a non-zero maximum. |
| `MruCache.EvictsLeastRecent` | src/chromium/memory/mru_cache.hh:90-107 | A full cache gives up the key touched longest ago. |
| `MruCache.EntriesAfter` | src/chromium/memory/mru_cache.hh:90-166 | Which entries, payloads included, are held after each operation on a cache with any history. |
| `MruCache.EachDeletedOnce` | src/chromium/memory/mru_cache.hh:137-166 | Over any life of a cache every payload is held or has been passed to the deletor exactly once, and all have been after clearing. |
| `MruCache.PayloadsConserved` | src/chromium/memory/mru_cache.hh:90-166 | No single operation loses a payload or deletes one twice. |
| `MruCache.Cache.Put` | src/chromium/memory/mru_cache.hh:90-107 | Index and list stay in agreement; contents and deletions are those of the recency-ordered map. |
| `MruCache.Cache.Get` | src/chromium/memory/mru_cache.hh:113-122 | Moves the entry to the front, with the index unchanged. |
| `MruCache.Cache.Peek` | src/chromium/memory/mru_cache.hh:128-133 | Finds the entry and changes nothing. |
| `MruCache.Cache.EraseNode` | src/chromium/memory/mru_cache.hh:137-141 | Removes one entry from list and index and deletes its payload. |
| `MruCache.Cache.ShrinkToSize` | src/chromium/memory/mru_cache.hh:154-157 | Keeps the most recent entries. |
| `MruCache.Cache.Clear` | src/chromium/memory/mru_cache.hh:160-166 | Deletes every payload once and empties both structures. |
| `MruCache.Cache.Destroy` | src/chromium/memory/mru_cache.hh:76-80 | The destructor's loop deletes whatever is still held. |
| `MruCache.Cache.Size` | src/chromium/memory/mru_cache.hh:169-174 | The size of the index is the length of the list. |
| `LinkedList.MutuallyInverse` | src/chromium/linked_list.hh:83-137 | Around the ring next and previous undo each other. |
| `LinkedList.LinkedList.InsertBefore` | src/chromium/linked_list.hh:90-95 | The node stands right before the given one, the ring intact. |
| `LinkedList.LinkedList.InsertAfter` | src/chromium/linked_list.hh:98-103 | Right after. |
| `LinkedList.LinkedList.RemoveFromList` | src/chromium/linked_list.hh:106-109 | The ring closes over the gap; the node's own pointers stay. |
| `LinkedList.LinkedList.Append` | src/chromium/linked_list.hh:149-151 | The node comes last. |
| `LinkedList.LinkedList.NumLiveInstances` | src/chromium/debug/leak_tracker.hh:110-119 | The forward walk meets each node once and ends at the root. |
| `LinkedList.LeakTracker.Construct` | src/chromium/debug/leak_tracker.hh:65-69 | A new tracker stands last in the ring and is counted. |
| `LinkedList.LeakTracker.Destroy` | src/chromium/debug/leak_tracker.hh:71-73 | A destroyed tracker, wherever it stands, leaves the ring. |
| `LinkedList.LeakTracker.NumLiveInstances` | src/chromium/debug/leak_tracker.hh:65-119 | The count is that of trackers constructed and not destroyed. |
| `LinkedList.LeakTracker.CheckForLeaks` | src/chromium/debug/leak_tracker.hh:75-108 | Passes exactly when all have been destroyed. |
| `SchemaValidator.NoErrorsExactlyWhen` | src/chrome/common/json_schema_validator.cc:146-487 | The validator finds no error if and only if the instance satisfies a declarative acceptance predicate, for every instance and every typed schema with acyclic references. |
| `SchemaValidator.FaultExactlyWhen` | src/chrome/common/json_schema_validator.cc:146-487 | An error of a kind and argument is found at a path if and only if a declarative fault predicate has it: a type, bound, required or undeclared property or item, choice, scalar or reference that fails there. |
| `SchemaValidator.ContainerErrors` | src/chrome/common/json_schema_validator.cc:270-406 | Declared properties are complained about before undeclared ones, counts before items, declared items before the rest. |
| `SchemaValidator.JSONSchemaValidator.ValidateRoot` | src/chrome/common/json_schema_validator.cc:146-150 | Returns true exactly for acceptable instances. |
| `SchemaValidator.JSONSchemaValidator.Validate` | src/chrome/common/json_schema_validator.cc:152-214 | Only appends to the error list, and appends exactly the errors there are. |
| `SchemaValidator.JSONSchemaValidator.ValidateChoices` | src/chrome/common/json_schema_validator.cc:216-237 | Cutting the list back after a failed choice leaves the errors from before, plus one if no choice fits. |
| `SchemaValidator.ChoiceExactlyWhen` | src/chrome/common/json_schema_validator.cc:216-237 | A choice is found exactly if the instance is acceptable to some option. |
| `SchemaValidator.JSONSchemaValidator.ValidateEnum` | src/chrome/common/json_schema_validator.cc:239-268 | One error exactly if no enumerated scalar equals the instance. |
| `SchemaValidator.JSONSchemaValidator.ValidateObject` | src/chrome/common/json_schema_validator.cc:270-316 | Declared properties in order, then the undeclared ones. |
| `SchemaValidator.JSONSchemaValidator.ValidateArray` | src/chrome/common/json_schema_validator.cc:318-358 | Item counts, then every item. |
| `SchemaValidator.JSONSchemaValidator.ValidateTuple` | src/chrome/common/json_schema_validator.cc:360-406 | Items in order, a missing one ends the tuple, then the surplus. |
| `SchemaValidator.JSONSchemaValidator.ValidateType` | src/chrome/common/json_schema_validator.cc:458-470 | An error exactly on a mismatch, an integer being a number. |
| `Vlog.MatchVlogPattern` | src/chromium/vlog.cc:115-166 | Ends, and is true exactly when the text is in the wildcard relation. |
| `Vlog.StarSearch` | src/chromium/vlog.cc:151-166 | Behind a star only non-empty suffixes need be tried. |
| `Vlog.StarsCoalesce` | src/chromium/vlog.cc:146-149 | A second star adds nothing to a first. |
| `Sbe.RequestRoundTrip` | include/sbe/hitsuji/Request.hpp:60-96 | In a buffer of just the needed size a request decodes to itself if and only if it has at most 255 field ids and at most 255 bytes of item name. |
| `Sbe.ReplyRoundTrip` | include/sbe/hitsuji/Reply.hpp:259-294 | The same for a reply and its payload. |
| `Sbe.AtMost255` | include/sbe/hitsuji/Request.hpp:562-583 | Whatever the buffer, decoding never yields more than one byte can count. |
| `Sbe.TaskRoundTrip` | src/worker.cc:183-198 | What the worker reads of the application's request is what was written if and only if the item name has at most 255 bytes. |
| `Sbe.WorkerMisreadsView` | src/worker.cc:193-198 | Of a request with a view the worker takes the group header for the item name. |
| `Sbe.EncodeRequest` | include/sbe/hitsuji/Request.hpp:60-96 | Written field by field in place into a buffer of any size, it succeeds if and only if the buffer is large enough, and then the buffer holds exactly the encoding. |
| `Sbe.EncodeTask` | src/hitsuji.cc:290-309 | The application's request without a view fills the buffer it allocates exactly, and nothing throws. |
| `Sbe.EncodeViewInTaskBuffer` | src/hitsuji.cc:342-365 | With a view the same size never suffices. |
| `Sbe.EncodeReply` | include/sbe/hitsuji/Reply.hpp:60-96 | The same for a reply. |
| `Sbe.RequestThroughBuffer` | include/sbe/hitsuji/Request.hpp:383-443 | Encoded in place and decoded again, under the exact condition. |
| `Sbe.RequestLayout` | include/sbe/hitsuji/Request.hpp:60-96 | Where every byte of a request is: the header 17, 1, 1, 0, the fixed fields in order, little-endian and in two's complement, and the two flag bits. |
| `Sbe.ViewLayout` | include/sbe/hitsuji/Request.hpp:396-443 | Behind them the size and number of the entries, the entries, and the name behind its length. |
| `Sbe.TaskLayout` | src/hitsuji.cc:290-309 | The same for the application's request without the group. |
| `Sbe.ReplyLayout` | include/sbe/hitsuji/Reply.hpp:60-96 | The header 12, 2, 1, 0, handle, token and the payload behind its length. |
| `Sbe.Codec.ViewCount` | include/sbe/hitsuji/Request.hpp:396-410 | Writes the group header and moves the position behind it, or fails at the end of the buffer. |
| `Sbe.Codec.NextFid` | include/sbe/hitsuji/Request.hpp:432-443 | The entry check wants one byte more behind the entry. |
| `Sbe.Codec.PutVarData` | include/sbe/hitsuji/Request.hpp:587-597 | Length byte and data behind each other, nothing before them changed. |
| `Bars.RollUpIsBar` | src/vta_rollup_bar.cc:214-240 | For every cut of a tick sequence into segments, rolling up the segment bars gives the bar of all ticks, with 64-bit volume and count. |
| `Bars.BarUnique` | src/vta_bar.cc:182-200 | There is only one bar of a tick sequence. |
| `Bars.ThreeWays` | src/vta_close.cc:130-183 | Tick bar, rollup and newest-first close agree. |
| `Bars.Bar.Calculate` | src/vta_bar.cc:96-200 | The callback over all ticks leaves their bar in the accumulators. |
| `Bars.RollupBar.Calculate` | src/vta_rollup_bar.cc:106-240 | The callback over all records leaves their rollup. |
| `Bars.RollupBar.Reset` | src/vta_rollup_bar.cc:555-565 | Nothing of an earlier request is left, its period included. |
| `Bars.Bar.Reset` | src/vta_bar.cc:515-521 | The same for the tick bar. |
| `Bars.Close.Calculate` | src/vta_close.cc:130-183 | One tick from the newest end: the last price, or no tick at all. |
| `Bars.First.Add` | src/accumulators/first.hh:37-43 | Only the first sample is kept. |
| `Bars.MantissaNearest` | src/rounding.hh:22-36 | The mantissa is the one integer nearest to the scaled price, halves going up. |
| `Bars.RoundNearest` | src/rounding.hh:38-45 | A rounded price is the one multiple of one ten-thousandth nearest to the price, the upper one of two. |
| `Bars.RoundMonotone` | src/rounding.hh:38-45 | Rounding is monotone. |
| `Bars.RoundIdempotent` | src/rounding.hh:38-45 | Rounding twice is rounding once. |
| `Bars.ExtremesOfRounded` | src/rounding.hh:38-45 | Rounding high and low gives the high and low of the rounded prices. |

## Left out

- Encoding of UPA messages, Vhayu record reads, ZeroMQ sockets, select and clocks: foreign calls; a step or method takes their outcome as a parameter.
- Order within the task and reply queues: both are bags, so every order is covered and none is promised.
- `Provider.Provider.CloseSessions`: flushing and closing the channels are foreign calls without effect on the state kept here.
- `Worker.Worker.SendReply`: the outcomes of lookup, authorisation, calculation and encoding are parameters.
- `ItemName.ParseRequest`: the values are kept as text; their conversion to times is a library call.
- `Registry.OneHistogramExactlyWhen`: the recorder neither starts nor ends during the run.
- Expiry of the keepalive timers: it appears as a disconnect and is not counted as progress of the drain.
- A close of the provider whose listening socket was never opened, and source-directory and dictionary requests beyond whether they were answered.
- The view of a request on the application's path beyond what `Sbe.WorkerMisreadsView` says: `ParseView` never accepts one.
- `Sbe.TaskRoundTrip`: the worker obtains pointer and length of the name as two arguments of one call; the model reads the length before the pointer moves the position, an order the language leaves open.
- `JsonSpelling.PrintedDenotes`: characters are bytes, so the `\u` escapes of the grammar reach no further than FF.
- The error codes of texts that are rejected for other reasons than those stated: mostly the general syntax error.
- JSON doubles as text: printing is lossy, so text and conversion are parameters; binary values, the options that omit values or escaping, and line and column of errors.
- `JsonReader.JsonReader.DecodeStringToken`: characters above one byte are not assembled from UTF-8, because strings are byte sequences here.
- `ValuePaths.DictionaryValue.Set`: nested dictionaries are values, so an update rebuilds those on its way; a pointer kept into one, and its update in place, are not captured. The same holds for removal and merging.
- List operations by index: easy. Deep copies are the values themselves.
- Hexadecimal conversion, and unsigned parsing of negative text.
- Custom histogram layouts, which sort their ranges with the standard library, and the graphs and HTML output.
- `Histogram.SampleSet.Add`: counts and sums are unbounded integers, so their 32- and 64-bit overflow is not modelled.
- `HistogramLayout.ExponentialIsLayout`: logarithm and exponential are exact reals, so rounding of floating point is not modelled.
- `Bars.MantissaNearest`: prices are reals, and the conversion to a 64-bit integer does not overflow.
- `Bars.Bar.Calculate`: the initial extremes of the accumulators, the limits of double, appear as the absence of a value.
- Memory ordering weaker than sequential consistency in the singleton and the static histogram pointers.
- `Singleton.OneInstance`: an exit while a call is under way, or in static memory while the object is being created, which the source calls a mistake.
- `Singleton.StaticOnce`: bringing the static singleton back after exit, which the source reserves for its own unit tests.
- `SchemaValidator.JSONSchemaValidator.Validate`: ids met during the walk are not registered, because they are declared beforehand.
- `SchemaValidator.JSONSchemaValidator.ValidateObject`: property names with dots are looked up directly. A schema for additional properties that has no type, a reference say, is validated like any other, where the source gives up with a failed check.
- `SchemaValidator.NoErrorsExactlyWhen`: schemas are typed and their ids declared before validation; the source also reads ids while it walks the schema and expands dots in property names.
- Error message texts of the validator beyond kind, path and argument.
- Module names and levels around the wildcard matcher, which split and compare strings.
- `Sbe.Codec.NextFid`: acting block length and version are those of the schema this model writes; other versions are not modelled.
- Command line, string splitting and trimming, permission data decoding and counters: easy.
