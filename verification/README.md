# Federated learning, modelled and proved

The repository trains one neural network on several ESP32 boards. A server publishes a
global model over HTTP, the boards train it, send their models back over a WebSocket as
JSON text, and the server averages them by their numbers of trainings. An FPGA design
computes neurons in single precision. This project models that story and proves properties
of it:

* `bytes`, `json_text`, `json_grammar`, `json_strings`, `json_parser`, `json_printer`,
  `json_roundtrip`: the JSON library's printer over a growing buffer and its
  recursive-descent parser over an offset, both as classes that are moved in place, against
  a pure text function and a pure grammar, and that parsing undoes printing.
* `json_numbers`, `json_language`, `json_errors`, `json_layout`: what that grammar and that
  text are, in terms of positions and bytes: the language that is accepted, the value of
  every text in it, the error position of every other text, and the layout of printed text.
* `json_access`, `item_list`, `item_copy`: looking up, comparing, linking and duplicating
  items; lists and trees are on the heap.
* `network`, `linked_network`, `averaging`, `network_copy`: the server's networks as layers,
  neurons and weights in doubly linked lists inside each other, summed, averaged, reset,
  copied and freed by walks along their links.
* `rounds`: the object whose handlers register clients, answer status checks and aggregate.
* `sums`, `protocol`, `federation`, `histories`, `recheck`, `departures`, `finishing`,
  `deviations`: whole runs of a server and any number of clients, an invariant kept by every
  step, one model per round, exact federated averaging, what a client that does not wait and
  a client that leaves do to a run, when the last round can still end, and two runs on which
  the code does less than it promises.
* `converters`, `network_json`, `wire_format`, `handlers`: models to JSON and back, linked
  networks written and rebuilt, the names on the wire, and a message from its bytes to the
  accumulator.
* `frames`, `message_queue`, `reassembly`, `delivery`, `interleaving`, `submission`: the
  client's frames, the server's buffer and queue, also shared by two clients, and the way of
  a submission from one end to the other.
* `neural_math`, `training`, `neural_results`: feed-forward, softmax and back-propagation
  over neurons on the heap against layerwise definitions, and what these leave behind, unit
  by unit and weight by weight.
* `float_words`, `float_units`, `newton_step`, `divider`, `accumulator`: comparator, adder,
  multiplier, the clocked divider and the clocked multiply-accumulate unit, with bounds of
  their errors.

What the proofs say about the code where it departs from its documentation or its purpose:

* Four bytes after `\u` that are not hexadecimal digits are taken for U+0000 instead of being
  refused (`UnescapeIff`).
* A message that is processed after the last round ends all admissions, also those of clients
  that have not submitted yet, until somebody asks to be registered (`FinalStatusIff`,
  `LateMessageEndsIt`).
* `cJSON_PrintPreallocated` needs two bytes more than the text; the header asks for five.
* `SetNeuralNetworkZeroWeightValue` resets the first bias of a layer only. `WeightedMeanIff`
  says exactly when a bias is averaged nevertheless, `SecondBiasDrifts` shows a run in which
  it is not.
* The copying loops lack an `else`: a list of one element is copied into a loop.
  `CopyEndsIff` says that a walk over a copy ends exactly when there is no such list; the
  server object keeps that condition, because it frees the copy it has published.
* A client that checks the status again while its message is queued can be counted twice in
  a round, or in a round it was not admitted to, and only such a client can
  (`RecheckGoesWrongIff`, `RecheckIsCountedTwice`); the properties of runs assume that
  clients wait.
* By `StatusTellsWhoOwes` a client that has submitted is refused until the round is over,
  and `deep_learning` leaves its loop for good when it is refused (FederatedLearningESP32/main/main.c:77-85).
  The last round can still end exactly if every registered client that has left was
  aggregated in it (`FinishesIff`, `SailFinishesIff`); one check before everyone has
  registered is enough to prevent it (`EarlyCheckBlocks`).
* A message over 16384 bytes is refused without clearing what was received of it. If any
  piece of it was taken, no message after it is ever queued; if none was, nothing is blocked
  (`ExactlyQueued`, `BlockedForGood`).
* Objects are told apart by counting braces, also those in strings. `ObjectArrivesIff` says
  which objects arrive in whatever pieces.
* A write of which the transport takes only a part announces bytes that its frame does not
  carry, whichever write it is (`AllWholeIff`); the last write makes the client send FIN twice
  besides (`OnlyLastCarriesFinIff`, `PartialWriteRepeatsFin`).
* The receive buffer is shared by all sessions: a client that begins to send before another
  one has ended spoils both texts (`BothHeardIff`).
* Back-propagation takes hidden deltas from weights that are already updated
  (`UpdatedWeightsShiftDelta` states the difference), and its delta buffers are right exactly
  when all hidden layers have the same width (`CopiesSufficeIff`).
* The Lasso's weight update leaves out the factor that its penalty has
  (`DescentFollowsPenaltyIff`).
* Exact negatives do not cancel in the adder, nor are differences right that need more
  shifts than the larger exponent; small products become infinity in the multiplier, and a
  zero accumulator is neutral only for exponents of at least 24
  (`AccurateIff`, `InfinityIff`, `ZeroIsNeutralIff`).
* `cJSON_Compare` does not accept a copy of an object that gives one name two meanings
  (`CopyComparesIff`).

Weights are real numbers in the network, protocol and training modules, and words in the
modules of the FPGA design, where every word is read with a hidden bit, as the circuits
read it.

`dafny verify dfyconfig.toml` checks everything.

## Model

| member | source | states |
|---|---|---|
| `JsonRoundTrip.ParseUndoesPrint` | FederatedLearningServer/src/cJSON.c:1175-1260 | Parsing undoes printing: for every item, its numbers being 32-bit integers or literals that denote themselves, formatted or not, the parsed text yields the same item with order and keys kept and nothing left over if at most 1000 containers are nested, and fails if there are more |
| `JsonRoundTrip.ValueParsesBack` | FederatedLearningServer/src/cJSON.c:1312-1438 | The same at any offset, indentation and nesting depth inside a larger text: success with the item and the offset after it exactly when the nesting limit is respected |
| `JsonRoundTrip.ArrayParsesBack` | FederatedLearningServer/src/cJSON.c:1441-1598 | A printed array is read back item by item, at any depth |
| `JsonRoundTrip.ObjectParsesBack` | FederatedLearningServer/src/cJSON.c:1601-1825 | A printed object is read back member by member, at any depth |
| `JsonRoundTrip.NumberParsesBack` | FederatedLearningServer/src/cJSON.c:305-379 | Any number in C's notation, of at most 63 bytes and followed by a byte of no number, is read back whole as an item, at any offset |
| `JsonLanguage.ParseIff` | FederatedLearningServer/src/cJSON.c:1079-1178 | Which texts are accepted, and with which value and end: exactly those that begin, blanks and byte order mark aside, with a text of that value in a language declared position by position |
| `JsonLanguage.ValueIff` | FederatedLearningServer/src/cJSON.c:1312-1364 | The same for a value at any offset and nesting depth: words, strings, numbers, arrays and objects, by their first byte |
| `JsonLanguage.ArrayIff` | FederatedLearningServer/src/cJSON.c:1441-1536 | The same for arrays: fewer than 1000 containers around it, items of the language, one comma between two of them, blanks anywhere between |
| `JsonLanguage.ObjectIff` | FederatedLearningServer/src/cJSON.c:1601-1711 | The same for objects: members separated by one comma |
| `JsonLanguage.MemberIff` | FederatedLearningServer/src/cJSON.c:1655-1683 | A member is a string, a colon and a value, blanks anywhere between |
| `JsonLanguage.ParseStringIff` | FederatedLearningServer/src/cJSON.c:773-899 | A string is read, with these bytes, if and only if its literal is closed and decodes to them |
| `JsonLanguage.ClosingQuoteIff` | FederatedLearningServer/src/cJSON.c:782-812 | A literal is closed by the first quote that an even number of backslashes stands before |
| `JsonLanguage.UnescapeIff` | FederatedLearningServer/src/cJSON.c:820-877 | The second pass yields exactly the concatenated senses of plain bytes, two-byte escapes, four hexadecimal digits and surrogate pairs; four bytes after `\u` that are not all such digits count as U+0000 |
| `JsonErrors.ParseFailsIff` | FederatedLearningServer/src/cJSON.c:1139-1158 | Which texts are refused, and with which error position: exactly those in which the parser is stuck there |
| `JsonErrors.StuckIff` | FederatedLearningServer/src/cJSON.c:1312-1364 | The same for a value at any offset and depth, by what stands at that position |
| `JsonErrors.StringFailsIff` | FederatedLearningServer/src/cJSON.c:773-899 | A literal fails at its first byte that starts nothing, or behind its quote if it is never closed |
| `JsonNumbers.ParseNumberIff` | FederatedLearningServer/src/cJSON.c:305-379 | A number is read if and only if a number in C's notation stands at the offset: of the first 63 number bytes the longest one is taken, and the offset moves behind it |
| `JsonNumbers.StrtodTakesLongest` | FederatedLearningServer/src/cJSON.c:342-353 | What `strtod` consumes is the longest number in C's notation (section 7.22.1.3 of ISO/IEC 9899:2011, decimal forms), and nothing if there is none |
| `JsonNumbers.NumeralIsRead` | FederatedLearningServer/src/cJSON.c:305-379 | Every such number, sign, point and exponent optional, of at most 63 bytes and followed by a byte of no number, is read whole |
| `JsonNumbers.NumberItemIs` | FederatedLearningServer/src/cJSON.c:355-371 | It becomes a 32-bit integer if it has no point and no exponent and is in range, by its decimal value, and is kept as spelled otherwise |
| `JsonText.IntTextReadsBack` | FederatedLearningServer/src/cJSON.c:545-612 | `%d` text of a 32-bit integer is one that the parser reads back as the same integer, consuming all of it |
| `JsonText.IntTextLength` | FederatedLearningServer/src/cJSON.c:548-580 | That text has at most 11 bytes, so it fits the 26-byte number buffer |
| `JsonNumbers.IntTextIsShortest` | FederatedLearningServer/src/cJSON.c:568-580 | That text is the number in C's notation without plus, leading zeros or minus zero |
| `JsonStrings.QuotedParsesBack` | FederatedLearningServer/src/cJSON.c:773-1021 | A quoted and escaped C string is parsed back as the same bytes, ending behind the closing quote |
| `JsonStrings.LiteralDecodes` | FederatedLearningServer/src/cJSON.c:773-899 | A literal built of plain bytes, short escapes, four-digit escapes and surrogate pairs decodes to the text these denote, in UTF-8, surrogates combined |
| `JsonStrings.DecodesToken` | FederatedLearningServer/src/cJSON.c:652-770 | One such escape or byte contributes exactly its meaning and the parser goes on behind it |
| `JsonStrings.Utf8Decodes` | FederatedLearningServer/src/cJSON.c:715-766 | The bytes written for a code point are its only strict UTF-8 form (section 3 of RFC 3629): decoding them yields the code point and their length |
| `JsonGrammar.ParseValue` | FederatedLearningServer/src/cJSON.c:1312-1364 | The parser is total on every terminated text: a success strictly advances and stays before the terminator, a failure leaves an offset inside the text |
| `JsonGrammar.ParseItems` | FederatedLearningServer/src/cJSON.c:1441-1536 | The same for the items of an array, despite the steps back of the offset: at least one item and strict progress |
| `JsonGrammar.ParseMembers` | FederatedLearningServer/src/cJSON.c:1601-1711 | The same for the members of an object |
| `JsonGrammar.SkipSpace` | FederatedLearningServer/src/cJSON.c:1038-1061 | Skipping white space never leaves the text, the step back from its end included |
| `JsonGrammar.Utf16Literal` | FederatedLearningServer/src/cJSON.c:652-713 | A literal consumes 6 or 12 bytes inside the string and denotes a code point below 0x110000 |
| `JsonParser.ParseBuffer.SkipWhitespace` | FederatedLearningServer/src/cJSON.c:1038-1061 | The loop over the offset computes that position, reading only inside the text |
| `JsonParser.ParseBuffer.EncodeUtf8` | FederatedLearningServer/src/cJSON.c:715-766 | The backwards loop writes exactly the UTF-8 bytes of the code point behind what was written before |
| `JsonParser.ParseBuffer.Utf16ToUtf8` | FederatedLearningServer/src/cJSON.c:652-770 | Reads one literal or pair, writes its UTF-8 form inside the given room and returns how many bytes it consumed, or 0 without writing |
| `JsonParser.ParseBuffer.ParseString` | FederatedLearningServer/src/cJSON.c:773-899 | Both passes over a string literal: the offset and the decoded bytes, or the failure position, for every text |
| `JsonParser.ParseBuffer.DecodeString` | FederatedLearningServer/src/cJSON.c:811-880 | For every literal, misaligned and invalid escapes included, the decoding pass writes fewer bytes than the sizing pass allocated |
| `JsonParser.EscapesInWindow` | FederatedLearningServer/src/cJSON.c:786-812 | Why the sizing pass suffices: however its escapes are aligned, it starts at most n of them in any 2n bytes |
| `JsonParser.LastByteStartsNoEscape` | FederatedLearningServer/src/cJSON.c:786-812 | Nor does it start one right before the closing quote |
| `JsonParser.ParseBuffer.ParseNumber` | FederatedLearningServer/src/cJSON.c:305-379 | Copies at most 63 number bytes, hands them to `strtod` and moves the offset by what that consumed |
| `JsonParser.ParseBuffer.ParseValue` | FederatedLearningServer/src/cJSON.c:1312-1364 | The recursive descent on the shared buffer computes the grammar, and restores the depth on success |
| `JsonParser.ParseBuffer.ParseArray` | FederatedLearningServer/src/cJSON.c:1441-1536 | The item loop computes the grammar of arrays |
| `JsonParser.ParseBuffer.ParseObject` | FederatedLearningServer/src/cJSON.c:1601-1711 | The member loop computes the grammar of objects |
| `JsonParser.ParseBuffer.ParseMember` | FederatedLearningServer/src/cJSON.c:1655-1683 | One member: key, colon and value |
| `JsonParser.ParseText` | FederatedLearningServer/src/cJSON.c:1079-1178 | `cJSON_Parse` on any C string: result, end offset and failure position as the grammar says |
| `JsonPrinter.PrintBuffer.Ensure` | FederatedLearningServer/src/cJSON.c:439-522 | Succeeds exactly when the bytes and a terminator fit under the limit (the length if the buffer is fixed, INT_MAX otherwise); what was printed survives every reallocation |
| `JsonPrinter.PrintBuffer.UpdateOffset` | FederatedLearningServer/src/cJSON.c:525-535 | `strlen` from the offset finds the end of what was written last |
| `JsonPrinter.PrintBuffer.PrintString` | FederatedLearningServer/src/cJSON.c:902-1021 | Writes exactly the quoted text behind what was there, if and only if it fits with one byte to spare |
| `JsonPrinter.PrintBuffer.WriteEscape` | FederatedLearningServer/src/cJSON.c:969-1014 | One escaped byte at its place; the terminator that `sprintf` adds stays inside the buffer |
| `JsonPrinter.PrintBuffer.EscapedSize` | FederatedLearningServer/src/cJSON.c:923-955 | The counting pass finds the exact length of the escaped string |
| `JsonPrinter.PrintBuffer.PrintNumber` | FederatedLearningServer/src/cJSON.c:545-612 | Writes the literal behind what was there, if and only if it fits |
| `JsonPrinter.PrintBuffer.PrintValue` | FederatedLearningServer/src/cJSON.c:1367-1438 | For any item and buffer state: succeeds if and only if the specified text fits, and then the buffer holds the old text followed by it |
| `JsonPrinter.PrintBuffer.PrintArray` | FederatedLearningServer/src/cJSON.c:1539-1598 | The same for arrays, depth restored |
| `JsonPrinter.PrintBuffer.PrintObject` | FederatedLearningServer/src/cJSON.c:1714-1825 | The same for objects, indentation included |
| `JsonPrinter.Print` | FederatedLearningServer/src/cJSON.c:1187-1260 | Returns exactly the specified text and a terminator, in a block of exactly that size |
| `JsonPrinter.PrintBuffered` | FederatedLearningServer/src/cJSON.c:1262-1290 | The same text for any initial size, however often the buffer grows |
| `JsonPrinter.PrintPreallocated` | FederatedLearningServer/src/cJSON.c:1292-1309 | Succeeds if and only if the caller's buffer has two bytes more than the text, and then holds the text (the documentation asks for five) |
| `JsonPrinter.TextNoNul` | FederatedLearningServer/src/cJSON.c:1367-1438 | Printed text contains no NUL, which is what `strlen` bookkeeping relies on |
| `JsonLayout.EscapeIs` | FederatedLearningServer/src/cJSON.c:969-1014 | Quote, backslash and the five named controls are escaped by a letter, the other controls by four lower-case hexadecimal digits, and nothing else is |
| `JsonLayout.QuotedIs` | FederatedLearningServer/src/cJSON.c:902-1021 | A string is printed byte by byte between quotes |
| `JsonLayout.ArrayIs` | FederatedLearningServer/src/cJSON.c:1539-1598 | An array is its items between brackets, joined by a comma and, if formatted, a space |
| `JsonLayout.ObjectIs` | FederatedLearningServer/src/cJSON.c:1714-1825 | An unformatted object is its members, each quoted key, colon and value, joined by commas between braces |
| `JsonLayout.FormattedObjectIs` | FederatedLearningServer/src/cJSON.c:1714-1825 | A formatted one has every member on its own line, with a tab for each level and one behind the colon, and its closing brace indented as the line that opens it |
| `JsonAccess.Find` | FederatedLearningServer/src/cJSON.c:1880-1910 | The search loop finds the first member with the name, with or without regard to case |
| `JsonAccess.LookupFindsFirst` | FederatedLearningServer/src/cJSON.c:1880-1910 | That is the first member of the name by position, and nothing exactly if there is none |
| `JsonAccess.SameNameIff` | FederatedLearningServer/src/cJSON.c:132-155 | Names agree if they are equal, or without regard to case if they are equal byte by byte up to the cases of A to Z |
| `JsonAccess.CompareItems` | FederatedLearningServer/src/cJSON.c:2986-3110 | The recursion with its loops over arrays and, both ways, over members computes the comparison |
| `JsonAccess.CompareIff` | FederatedLearningServer/src/cJSON.c:2986-3110 | Two items compare equal if and only if neither has an object with two meanings for one name and they are the same document up to the order of members |
| `JsonAccess.CopyComparesIff` | FederatedLearningServer/src/cJSON.c:2986-3110 | An item equals its copy if and only if no object in it, at any depth, gives one name two meanings |
| `JsonAccess.RepeatedNames` | FederatedLearningServer/src/cJSON.c:3066-3105 | Repeating a name with the same value is such an object, with another value it is not |
| `ItemList.Item.LinksAre` | FederatedLearningServer/src/cJSON.c:1956-1987 | What a linked list is: it begins at `child`, `next` and `prev` undo each other inside it, the last `next` is NULL and the first `prev` is the last item |
| `ItemList.Item.GetArrayItem` | FederatedLearningServer/src/cJSON.c:1851-1868 | The walk along `next` returns the item at the index or NULL |
| `ItemList.Item.AddItemToArray` | FederatedLearningServer/src/cJSON.c:1956-1987 | Appends one item to the sequence and keeps `next`/`prev` inverse, the last `next` NULL and the first `prev` at the tail; refuses NULL and the array itself |
| `ItemList.Item.InsertItemInArray` | FederatedLearningServer/src/cJSON.c:2263-2290 | Inserts before the index, at the front and in the middle, or appends beyond the end; negative indices are refused |
| `ItemList.Item.DetachItemViaPointer` | FederatedLearningServer/src/cJSON.c:2187-2221 | Takes one item out at any position, a single one included, and clears its links |
| `ItemList.Item.ReplaceItemViaPointer` | FederatedLearningServer/src/cJSON.c:2292-2339 | Replaces one item in place at any position and clears the links of the old one |
| `ItemList.Item.DetachItemFromArray` | FederatedLearningServer/src/cJSON.c:2223-2231 | Detaches by index; NULL when there is none |
| `ItemCopy.Duplicate` | FederatedLearningServer/src/cJSON.c:2706-2787 | A deep copy: every object is new and at one place only, even where branches of the original share objects; the tree of contents is the same (reference flags cleared), every sibling list in it is linked properly; without recursion no children |
| `ItemCopy.CopyIsSame` | FederatedLearningServer/src/cJSON.c:2706-2787 | That tree has the contents of the original at every place, children in order and only the reference marks cleared |
| `ItemCopy.DuplicateChildren` | FederatedLearningServer/src/cJSON.c:2749-2777 | The walk over the children, which crosswires copies of whole subtrees |
| `ItemCopy.HeldIsTree` | FederatedLearningServer/src/cJSON.c:2706-2787 | So a copy can itself be copied: what is held without repetition is a tree |
| `Averaging.FederatedAveragingSum` | FederatedLearningServer/src/federatedlearning.c:675-705 | In place, along the links of both networks, every weight and bias of the accumulator grows by the client's times its number of trainings; the client's network stays, and so do all links |
| `Averaging.FederatedAveraging` | FederatedLearningServer/src/federatedlearning.c:655-673 | In place, along the links, every weight and bias is divided by the number of trainings |
| `Averaging.SetNeuralNetworkZeroWeightValue` | FederatedLearningServer/src/federatedlearning.c:707-722 | In place, along the links, every weight becomes zero, but of the biases only the first neuron's in each layer |
| `NetworkCopy.CopyNeuralNetwork` | FederatedLearningServer/src/federatedlearning.c:135-170 | For any properly linked network: equal contents in layers, neurons and weights that are all new and all different, in lists of the same lengths at every level, each `previous` link right but the first, which is at the cell itself, and each last `next` NULL unless the cell is alone |
| `NetworkCopy.CopyNextLayer` | FederatedLearningServer/src/federatedlearning.c:103-170 | One turn of the outer loop appends the copy of a whole layer |
| `NetworkCopy.CopyNextNeuron` | FederatedLearningServer/src/federatedlearning.c:69-133 | One turn of the middle loop appends the copy of a neuron with its weights |
| `NetworkCopy.AppendWeight` | FederatedLearningServer/src/federatedlearning.c:82-99 | The crosswiring without `else` keeps the links of a copied list |
| `NetworkCopy.CopyEndsIff` | FederatedLearningServer/src/federatedlearning.c:62-170 | The three nested walks over the copy end if and only if no list of the network, at any level, has exactly one element; in that case, and in no other, the copy is linked like the original |
| `NetworkCopy.CopyLinksBack` | FederatedLearningServer/src/federatedlearning.c:82-165 | Backwards no walk over a copy ends: the first cell of every list is its own predecessor |
| `NetworkCopy.FreeNeuralNetwork` | FederatedLearningServer/src/federatedlearning.c:190-225 | Frees every cell of a properly linked network once and no other; no cell is read after it was freed |
| `NetworkJson.FederatedLearningToJSON` | FederatedLearningServer/src/JSONConverter.c:8-67 | The nested walks along the links of layers, neurons and weights build exactly the items of the network |
| `NetworkJson.JSONToFederatedLearning` | FederatedLearningServer/src/JSONConverter.c:72-290 | The nested loops rebuild any items, malformed ones included: what is there is assigned, what is missing stays arbitrary, and the cells are new, all different and linked properly in both directions at every level |
| `NetworkJson.ReadNetwork` | FederatedLearningServer/src/JSONConverter.c:103-276 | The same for the network with its settings |
| `NetworkJson.LinkWeight` | FederatedLearningServer/src/JSONConverter.c:254-266 | The appending step keeps a list linked properly in both directions |
| `NetworkJson.LayersAreInOrder` | FederatedLearningServer/src/JSONConverter.c:160-185 | What properly linked means for the layers of a rebuilt network: they begin and end where the network points, nothing precedes the first or follows the last, and `next` and `previous` undo each other |
| `NetworkJson.NeuronsAreInOrder` | FederatedLearningServer/src/JSONConverter.c:193-242 | The same for the neurons of a layer |
| `NetworkJson.WeightsAreInOrder` | FederatedLearningServer/src/JSONConverter.c:247-268 | The same for the weights of a neuron |
| `Handlers.RebuiltEqualsSent` | FederatedLearningServer/src/JSONConverter.c:72-290 | A network rebuilt from the items of another one has the same weights and biases in the same places, and on the ESP32 every field that is sent |
| `Handlers.HandleClientModelMessage` | FederatedLearningServer/src/websockethandlers.c:8-38 | From the bytes of a message to the accumulator: what does not parse changes nothing, and a usable model of a registered client is aggregated with exactly the parameters and the count in it |
| `Rounds.FederatedLearning.HandleNodeRegister` | FederatedLearningServer/src/httphandlers.c:152-226 | Registration on the object computes the server step: limit, duplicates, status raised by the last client |
| `Rounds.FederatedLearning.HandleCheckModelStatus` | FederatedLearningServer/src/httphandlers.c:95-150 | Positive exactly for a registered client whose interaction is the current one, once all are registered and the status is set |
| `Rounds.FederatedLearning.HandleModelMessage` | FederatedLearningServer/src/websockethandlers.c:8-38 | Counts the sender and aggregates its model, in the real networks, as the server step says |
| `Rounds.FederatedLearning.AggregationModel` | FederatedLearningServer/src/federatedlearning.c:724-773 | The aggregation on the linked networks equals the step on values; both networks stay linked properly, made of cells that were not freed, and share nothing |
| `Rounds.FederatedLearning.CloseRound` | FederatedLearningServer/src/federatedlearning.c:757-771 | Averages, frees the published network, publishes a copy, resets the accumulator and starts the next round |
| `Rounds.Publish` | FederatedLearningServer/src/federatedlearning.c:763-765 | The copy replaces the freed network; it can be walked because no list has exactly one element |
| `Rounds.Find` | FederatedLearningServer/src/httphandlers.c:107-115 | The search over the client list yields the first client with the address |
| `Protocol.StepKeeps` | FederatedLearningServer/src/httphandlers.c:51-226 | Every step, be it a registration, a status check, a download, a submission, a model freed unsent or a message processed, in any interleaving, keeps the invariant of the whole system |
| `Protocol.RegisterKeeps` | FederatedLearningServer/src/httphandlers.c:152-226 | Registration keeps it: distinct addresses, count equal to the list length and at most the limit |
| `Protocol.ProcessMidRound` | FederatedLearningServer/src/federatedlearning.c:724-753 | Aggregating a message inside a round keeps it: counter and every parameter of the accumulator are the partial sums of the round |
| `Protocol.ProcessCloses` | FederatedLearningServer/src/federatedlearning.c:724-773 | Closing a round keeps it: nobody else is pending, and the next round starts from the carried values |
| `Federation.OneModelPerRound` | FederatedLearningESP32/main/main.c:73-87 | Over every run: between a client's positive check and the processing of its submission neither the global model nor the round changes, however often it frees a model unsent and checks again; the submission was trained from that model and admitted to that round |
| `Histories.MessageIsTold` | FederatedLearningESP32/main/main.c:73-87 | Over every run, also one in which clients do not wait: each queued message was sent by a client whose steps before were the download of the model it was trained from and, before that, the positive check of the round it was admitted to |
| `Federation.RoundHasOneBase` | FederatedLearningServer/src/federatedlearning.c:724-773 | All models aggregated in a round were trained from the model published for it, and admitted to it |
| `Federation.PartialSumsHold` | FederatedLearningServer/src/federatedlearning.c:675-756 | Over every run, inside a round: the counter is the number of trainings aggregated so far, and every parameter of the accumulator is the weighted sum so far (plus the bias published last where it is never reset) |
| `Federation.FedAvgIsExact` | FederatedLearningServer/src/federatedlearning.c:655-773 | At every close each published weight, and each first bias, is the sum of n*w over the round's clients divided by the sum of n; in the first round so are all biases |
| `Federation.UnresetBiasRecurrence` | FederatedLearningServer/src/federatedlearning.c:707-722 | The other biases obey the exact recurrence: the bias published last is added to the weighted sum |
| `Federation.WeightedMeanIff` | FederatedLearningServer/src/federatedlearning.c:707-773 | Hence a round yields the weighted mean at a place if and only if the place is reset, or the round is the first, or the value published last was zero |
| `Federation.MeanIsBetween` | FederatedLearningServer/src/federatedlearning.c:655-705 | A published mean lies between the smallest and the largest value submitted |
| `Federation.OrderDoesNotMatter` | FederatedLearningServer/src/federatedlearning.c:675-705 | Counts and weighted sums do not depend on the order of submissions |
| `Federation.RoundCloses` | FederatedLearningServer/src/federatedlearning.c:743-771 | At a close every parameter is the carried value plus the weighted sum over the round, divided by the count |
| `Federation.EveryoneOnce` | FederatedLearningServer/src/federatedlearning.c:724-773 | A round is closed by exactly one submission of every registered client |
| `Federation.RoundsAdvance` | FederatedLearningServer/src/federatedlearning.c:724-773 | The round counter never decreases and never passes the number of rounds |
| `Federation.FinishedIsFrozen` | FederatedLearningServer/src/federatedlearning.c:730-733 | After the last round submissions change neither the accumulator nor the model |
| `Federation.FinalStatusIff` | FederatedLearningServer/src/federatedlearning.c:728-733 | Over every run, once the last round is over: a status check is positive exactly for the registered clients that have not submitted since, all being registered, and only while no message has been processed since the last close or the last request for registration |
| `Federation.LateMessageEndsIt` | FederatedLearningServer/src/federatedlearning.c:728-733 | A message processed after the last round ends all admissions until the next request for registration |
| `Federation.LastCloseAdmits` | FederatedLearningServer/src/httphandlers.c:95-150 | From the last close until the first such message exactly the registered clients without a submission since are admitted |
| `Federation.RegistrationIs` | FederatedLearningServer/src/httphandlers.c:152-219 | What a request for registration is answered and who is listed afterwards: nobody beyond the limit, nobody twice, the new client last and with interaction zero |
| `Federation.RosterHolds` | FederatedLearningServer/src/httphandlers.c:152-219 | Over every run: the registered count is the list length, at most the limit, addresses are distinct, and interactions are the current one or one more |
| `Federation.StatusTellsWhoOwes` | FederatedLearningServer/src/httphandlers.c:95-130 | Over every run: until the last round is over a status check is positive exactly for the clients whose submission of the current round is missing |
| `Federation.QueuedIsProcessed` | FederatedLearningServer/src/websockethandlers.c:17-33 | Over every run: what is queued can be processed, its sender being known, its shape right and the divisor not zero |
| `Recheck.RecheckGoesWrongIff` | FederatedLearningServer/src/httphandlers.c:95-130 | After a positive check, clients that wait from then on can still be led to a message that is a second one of its client in a round, or was admitted to an earlier round, if and only if the client that checked had a message in the queue |
| `Recheck.BehindGoesWrong` | FederatedLearningServer/src/websocketserver.c:80-108 | Processing the queue before such a message leads there, from any state of the invariant |
| `Recheck.StaysRight` | FederatedLearningServer/src/websockethandlers.c:8-38 | No continuation of a state of the invariant leads there |
| `Departures.DepartedBoundsRounds` | FederatedLearningESP32/main/main.c:73-87 | Over every run: once a registered client was refused and has left, its interaction stays and the round counter never passes it |
| `Departures.FinishingNeedsEveryone` | FederatedLearningServer/src/federatedlearning.c:741-753 | Hence the last round ends only in runs in which every registered client that left had been aggregated in the last round before it was refused |
| `Departures.EarlyRefusalBlocks` | FederatedLearningServer/src/httphandlers.c:95-150 | A registered client that is refused before everyone has registered, or in any round but the last, keeps the federation from ever finishing |
| `Finishing.FinishesIff` | FederatedLearningServer/src/federatedlearning.c:730-773 | In any state of the invariant in which clients leave when they are refused, some continuation ends the last round if and only if every registered client that has left had been aggregated in it: registering whoever is missing, then turns of those who owe, is such a continuation |
| `Finishing.SailFinishesIff` | FederatedLearningESP32/main/main.c:73-87 | The same in every state of every run from the start, if at least one client is expected |
| `Finishing.EarlyCheckBlocks` | FederatedLearningServer/src/httphandlers.c:95-150 | The shortest such run: one of two clients registers, checks, is refused and leaves, and no continuation finishes |
| `Deviations.RecheckIsCountedTwice` | FederatedLearningServer/src/httphandlers.c:119-130 | A run on a network of two layers in which a client checks again before its message is processed and is aggregated twice in one round |
| `Deviations.SecondBiasDrifts` | FederatedLearningServer/src/federatedlearning.c:707-722 | A run of two equal rounds on such a network whose second biases come out doubled |
| `Converters.ModelReadsBack` | FederatedLearningServer/src/JSONConverter.c:72-290 | Reading what was written: the ESP32 gets the whole model back, the server all of it but the layers' activation functions |
| `Converters.LayerReadsBack` | FederatedLearningESP32/components/cJSON/JSONConverter.c:147-184 | The same for one layer |
| `Converters.NeuronReadsBack` | FederatedLearningESP32/components/cJSON/JSONConverter.c:183-250 | The same for one neuron and its weights in order |
| `WireFormat.ModelIsWired` | FederatedLearningServer/src/JSONConverter.c:8-67 | What is written for a model: every field under its own name, byte by byte, in the order of the source, down to the weights |
| `WireFormat.NetIsWired` | FederatedLearningServer/src/JSONConverter.c:18-63 | The same for a network with its settings |
| `WireFormat.LayerIsWired` | FederatedLearningServer/src/JSONConverter.c:30-60 | The same for a layer |
| `WireFormat.NeuronIsWired` | FederatedLearningServer/src/JSONConverter.c:37-57 | The same for a neuron |
| `WireFormat.ModelIsRead` | FederatedLearningServer/src/JSONConverter.c:72-290 | What is read of any object, malformed ones included: every field from the first member that has its name in any mixture of cases, if that is of the right kind |
| `WireFormat.NetIsRead` | FederatedLearningServer/src/JSONConverter.c:103-276 | The same for a network: without a layer count there are no layers |
| `WireFormat.LayerIsRead` | FederatedLearningESP32/components/cJSON/JSONConverter.c:147-184 | The same for a layer; only the ESP32 reads its activation function |
| `WireFormat.NeuronIsRead` | FederatedLearningESP32/components/cJSON/JSONConverter.c:183-250 | The same for a neuron: the type cut to 20 bytes, the weights in order |
| `WireFormat.NameMatchesIff` | FederatedLearningServer/src/JSONConverter.c:78-270 | Which keys count as a field's name: those that are its letters in any mixture of cases |
| `Frames.WebSocketClient.SendWithExactOpcode` | FederatedLearningESP32/components/espwebsocketclient/esp_websocket_client.c:548-587 | The loop over the send buffer puts the specified frames on the wire, whatever the transport answers |
| `Frames.PayloadsAreTheData` | FederatedLearningESP32/components/espwebsocketclient/esp_websocket_client.c:555-586 | The payloads are a prefix of the data in order, and all of it if and only if the length is returned |
| `Frames.AnnouncesWhatIsLeft` | FederatedLearningESP32/components/espwebsocketclient/esp_websocket_client.c:555-583 | Every frame announces all the bytes that are left, up to the size of the buffer |
| `Frames.ErrorIsReturned` | FederatedLearningESP32/components/espwebsocketclient/esp_websocket_client.c:563-580 | The loop stops at the first error, one call after the last frame, and returns what that call answered |
| `Frames.AllWholeIff` | FederatedLearningESP32/components/espwebsocketclient/esp_websocket_client.c:555-580 | Every frame carries as many bytes as it announces if and only if no call before the first error is taken in part |
| `Frames.SentWholeIff` | FederatedLearningESP32/components/espwebsocketclient/esp_websocket_client.c:548-587 | All data is sent in such frames if and only if the transport takes all of every call |
| `Frames.OnlyFirstCarriesOpcode` | FederatedLearningESP32/components/espwebsocketclient/esp_websocket_client.c:555-581 | Only the first frame carries the opcode, and no frame exceeds the buffer |
| `Frames.OnlyLastCarriesFinIff` | FederatedLearningESP32/components/espwebsocketclient/esp_websocket_client.c:553-562 | A message sent completely ends with its only FIN frame if and only if the transport takes all bytes of the first call that asks for the rest of them |
| `Frames.PartialWriteRepeatsFin` | FederatedLearningESP32/components/espwebsocketclient/esp_websocket_client.c:553-580 | Two bytes of which one is taken at first: FIN is sent twice, and the first frame announces a byte that it does not carry |
| `MessageQueues.MessageBuffer.Insert` | FederatedLearningServer/src/websocketserver.c:47-78 | Appends to the linked queue, empty or not |
| `MessageQueues.MessageBuffer.Remove` | FederatedLearningServer/src/websocketserver.c:80-100 | Hands the first message to the handler and unlinks it |
| `MessageQueues.MessageBuffer.HandleMessages` | FederatedLearningServer/src/websocketserver.c:102-108 | Empties the queue, handling messages in the order of their insertion |
| `Reassembly.Receiver.IsCompleteJson` | FederatedLearningServer/src/websocketserver.c:110-123 | The counting loop decides whether opening and closing braces are as many, and some |
| `Reassembly.Receiver.OnReceive` | FederatedLearningServer/src/websocketserver.c:158-177 | The receive branch on the static buffer: refuses what does not fit, appends, and queues and clears what is complete |
| `Delivery.TextBalanced` | FederatedLearningServer/src/websocketserver.c:110-123 | A printed object without braces in its strings has positive brace depth on every proper non-empty prefix and none left at the end |
| `Delivery.DeliveredInOrder` | FederatedLearningServer/src/websocketserver.c:150-184 | Messages sent one after the other, each cut into any pieces, are queued exactly once and in order |
| `Delivery.DeliveredIff` | FederatedLearningServer/src/websocketserver.c:160-177 | Whatever is left in the buffer, a message is queued as it is if and only if it fits and the buffer is empty |
| `Delivery.DeliveredAfterIff` | FederatedLearningServer/src/websocketserver.c:158-177 | The same after any history of texts and pieces, none of which leaves a complete text in the buffer |
| `Delivery.ArrivesIff` | FederatedLearningServer/src/websocketserver.c:110-177 | A text that begins with a brace is queued once and leaves nothing, however it is cut, if and only if that brace is closed by the last byte and no earlier one |
| `Delivery.ObjectArrivesIff` | FederatedLearningServer/src/websocketserver.c:110-177 | So of the printed objects exactly these arrive, with braces in strings or without |
| `Delivery.ExactlyQueued` | FederatedLearningServer/src/websocketserver.c:158-177 | What is queued of any messages, in any pieces and of any lengths: each that fits, until one that is too long leaves a remainder |
| `Delivery.AllQueuedIff` | FederatedLearningServer/src/websocketserver.c:158-177 | All messages are queued, once each and in order, if and only if every one of them fits |
| `Delivery.BlockedForGood` | FederatedLearningServer/src/websocketserver.c:158-177 | With an unclosed brace in the buffer no message that follows is ever queued, however many there are |
| `Delivery.LeftoverBlocks` | FederatedLearningServer/src/websocketserver.c:160-177 | One such message is lost in whatever pieces it comes, and leaves an unclosed brace again |
| `Delivery.TooLongIsRefused` | FederatedLearningServer/src/websocketserver.c:160-163 | A message longer than 16384 bytes is refused, and exactly the pieces before the first that did not fit stay in the buffer |
| `Delivery.BraceInStringBreaks` | FederatedLearningServer/src/websocketserver.c:110-123 | An object with a closing brace in a string that is cut there is queued too early, and its rest stays in the buffer |
| `Interleaving.TwoAtOnce` | FederatedLearningServer/src/websocketserver.c:126-177 | Two clients that send at once into the one buffer, two texts that fit it together, in any pieces and any order of arrival: both are queued as they are, in the order in which they begin, if neither begins before the other has ended, and otherwise one message of their joint length is |
| `Interleaving.BothHeardIff` | FederatedLearningServer/src/websocketserver.c:126-177 | Hence both texts are queued as they are if and only if neither client interrupts the other |
| `Delivery.ModelTravels` | FederatedLearningESP32/components/websocket/websocketclient.c:44-48 | From the client's items to the server's: printed, cut into frames by a transport that takes all of every call, received in any pieces, queued once, and parsed back to the same items |
| `Submission.SubmissionArrives` | FederatedLearningServer/src/websockethandlers.c:8-38 | From the client's model to the handler's, over a transport that takes all of every call: the training count and every weight and bias that are aggregated are the client's |
| `Submission.ModelTravelsAsItems` | FederatedLearningServer/src/JSONConverter.c:8-67 | A model's items are printable, brace-free and at most seven deep, whatever its size |
| `Training.FeedForward` | FederatedLearningESP32/components/federatedlearning/federatedlearning.c:430-466 | The nested walk overwrites activations exactly as the stepwise definition says, on any fully connected network |
| `Training.ActivationFunctionCalculation` | FederatedLearningESP32/components/federatedlearning/federatedlearning.c:234-283 | The activation functions, softmax with its second walk over the last layer |
| `NeuralMath.FeedForwardIsConsistent` | FederatedLearningESP32/components/federatedlearning/federatedlearning.c:430-466 | Afterwards every activation is its function of the final activations before it, input, weights and biases as given; softmax before the last layer excepted |
| `NeuralMath.SoftmaxSumsToOne` | FederatedLearningESP32/components/federatedlearning/federatedlearning.c:253-277 | The outputs of any network ending in softmax are positive and sum to exactly one, for any positive `exp` |
| `NeuralResults.EveryUnitFires` | FederatedLearningESP32/components/federatedlearning/federatedlearning.c:234-283 | After feed-forward, with z the bias plus the sum of weight times activation before, index by index: a perceptron gives 1 or 0 by the sign of z, ReLU the larger of 0 and z, a sigmoid a value a with a * (1 + exp(-z)) == 1; biases, weights and inputs stay |
| `NeuralResults.SoftmaxInProportion` | FederatedLearningESP32/components/federatedlearning/federatedlearning.c:253-277 | Outputs of softmax are in proportion to the exponentials of their z |
| `NeuralResults.SoftmaxAddsUp` | FederatedLearningESP32/components/federatedlearning/federatedlearning.c:253-277 | They are positive and add up to one |
| `Training.BackPropagation` | FederatedLearningESP32/components/federatedlearning/federatedlearning.c:468-595 | The in-place walk with its delta and weight buffers equals the layerwise definition where the hidden layers have one width: output delta a - label, hidden delta transpose(updated next weights) * next delta times the derivative, every layer but the input trained once |
| `Training.CopiesSufficeIff` | FederatedLearningESP32/components/federatedlearning/federatedlearning.c:535-559 | The copies of the deltas stay inside their sources and hold every delta that is read from them, at every hidden layer, if and only if all hidden layers have the same width |
| `Training.UnequalHiddenFails` | FederatedLearningESP32/components/federatedlearning/federatedlearning.c:535-559 | Hidden layers of three and two neurons: the copy runs past its source; of two and three: a delta is read past the copy |
| `Training.TrainOne` | FederatedLearningESP32/components/federatedlearning/federatedlearning.c:481-591 | One turn of the loop over the layers, with the count of deltas that it leaves for the next turn |
| `Training.TrainLayer` | FederatedLearningESP32/components/federatedlearning/federatedlearning.c:511-530 | Every weight and bias of a layer moves once, by the selected rule, from the activations before it; the buffer receives the transposed new weights |
| `Training.InnerDeltas` | FederatedLearningESP32/components/federatedlearning/federatedlearning.c:532-555 | Hidden deltas from the copied deltas and the buffer of updated weights, inside all buffers |
| `NeuralMath.TrainingKeeps` | FederatedLearningESP32/components/federatedlearning/federatedlearning.c:468-595 | Training changes no activation and no shape |
| `NeuralResults.OutputMoves` | FederatedLearningESP32/components/federatedlearning/federatedlearning.c:490-515 | On the network before and after: the bias of output unit i falls by alpha * (a_i - label_i) |
| `NeuralResults.OutputRule` | FederatedLearningESP32/components/federatedlearning/federatedlearning.c:490-527 | Without regularization its weight j falls by alpha * (a_i - label_i) times the activation j before |
| `NeuralResults.HiddenMoves` | FederatedLearningESP32/components/federatedlearning/federatedlearning.c:532-577 | The bias of a hidden unit falls by the sum, over the units after it, of their step times their updated weight to it, times the slope of its function: 1 where a > 0 for perceptron and ReLU, a * (1 - a) for the sigmoid |
| `NeuralResults.OneWeightMoves` | FederatedLearningESP32/components/federatedlearning/federatedlearning.c:301-386 | Any weight falls by its unit's step times the activation before and by what the regularization adds: the sign of the weight times alpha, or twice alpha * lambda * weight |
| `NeuralMath.DescentFollowsPenaltyIff` | FederatedLearningESP32/components/federatedlearning/federatedlearning.c:301-386 | A weight moves against the gradient of the loss with its penalty if and only if the rule is not the Lasso's, or lambda is one, or the weight or the rate is zero: the Lasso's update leaves lambda out |
| `NeuralMath.UpdatedWeightsShiftDelta` | FederatedLearningESP32/components/federatedlearning/federatedlearning.c:540-549 | How far that order departs from the textbook one: without regularisation a hidden delta differs by alpha * a * norm(next deltas)^2 * derivative |
| `FloatUnits.CompareOrders` | FederatedLearningFPGA/alu.v:35-58 | The comparator decides `>` between words that differ in sign or are positive, and `>=` between negative ones |
| `FloatUnits.Adder` | FederatedLearningFPGA/alu.v:61-120 | The adder step by step computes the specified word |
| `FloatUnits.Normalize` | FederatedLearningFPGA/alu.v:108-115 | The normalisation loop reaches its goal before its bound of 24 turns |
| `FloatUnits.SameSignRounds` | FederatedLearningFPGA/alu.v:61-120 | Operands of one sign: the exact sum rounded toward zero (section 4.3.2 of IEEE 754-2008), less than one part in 2^23 below |
| `FloatUnits.SumOverflowsIff` | FederatedLearningFPGA/alu.v:61-120 | The exponent of such a sum is that of infinity if and only if the exact sum is at least 2^128 |
| `FloatUnits.LargestStays` | FederatedLearningFPGA/alu.v:84-90 | An operand of exponent 255 keeps exponent and sign, whatever of its sign is added |
| `FloatUnits.OppositeSignsBound` | FederatedLearningFPGA/alu.v:61-120 | Opposite signs whose aligned difference reaches the hidden bit within the larger exponent: sign of the larger operand, magnitude not below the exact one and less than one of its last places above |
| `FloatUnits.ExponentUsedUp` | FederatedLearningFPGA/alu.v:108-117 | Opposite signs otherwise: the result is off by at least two of those last places |
| `FloatUnits.UsedUpLeavesShifted` | FederatedLearningFPGA/alu.v:108-117 | Where the exponent is used up, what is left is the difference shifted by it, with exponent zero |
| `FloatUnits.AccurateIff` | FederatedLearningFPGA/alu.v:61-120 | For all operands that are not infinite: a sum is within two of the larger operand's last places of the exact one if and only if the signs agree or the aligned difference, shifted by the larger exponent, reaches the hidden bit |
| `FloatUnits.SmallDifferenceIsOff` | FederatedLearningFPGA/alu.v:104-117 | Two small words that are no exact negatives of each other and whose sum is off |
| `FloatUnits.NegativesDoNotCancel` | FederatedLearningFPGA/alu.v:104-107 | Exact negatives add up to a power of two as large as they are |
| `FloatUnits.DifferenceValue` | FederatedLearningFPGA/alu.v:92-117 | Where that difference reaches the hidden bit, normalising preserves mantissa times two to the exponent |
| `FloatUnits.ProductRounds` | FederatedLearningFPGA/alu.v:122-176 | A product with a representable exponent is the exact product rounded toward zero |
| `FloatUnits.InfinityIff` | FederatedLearningFPGA/alu.v:146-174 | The result is infinity if and only if the exponent overflows or falls below zero, and zero exactly when it is zero: the nine-bit exponent wraps |
| `FloatWords.WithinUlpRoundsDown` | FederatedLearningFPGA/alu.v:122-176 | What the bounds mean: no other word lies closer from below |
| `FloatWords.MagnitudeOrder` | FederatedLearningFPGA/alu.v:46-57 | Magnitudes are ordered as exponent and fraction are |
| `Divider.DividerUnit.Clock` | FederatedLearningFPGA/alu.v:249-298 | One clock edge computes the specified transition |
| `Divider.RunTakesExactly` | FederatedLearningFPGA/alu.v:249-298 | A run takes exactly ITER + 3 enabled clocks, whatever disabled ones fall between; the result register stays until the last |
| `Divider.ZeroDividend` | FederatedLearningFPGA/alu.v:249-255 | A zero dividend gives zero at the next edge, enabled or not, and ends the division under way |
| `Divider.GuessError` | FederatedLearningFPGA/alu.v:200-213 | The first guess is within 0.06 of the reciprocal, for every mantissa |
| `Divider.StepError` | FederatedLearningFPGA/alu.v:215-232 | A Newton step of the circuit squares the relative error, up to three units of 2^-23 below and one above |
| `Divider.ErrorAfter` | FederatedLearningFPGA/alu.v:200-232 | The error after any number of steps: quadratic contraction down to the roundings |
| `Divider.RescaledIff` | FederatedLearningFPGA/alu.v:234-238 | Putting the divisor's exponent back is right if and only if the eight-bit difference does not wrap; otherwise the reciprocal is 2^256 too large |
| `Divider.QuotientIsAccurate` | FederatedLearningFPGA/alu.v:200-238 | From three Newton steps on, whenever the eight-bit difference of `RescaledIff` does not wrap: every quotient that is not reported as zero or infinity is within one part in 2^21, with the right sign; it is reported as a number if the exponents differ by -124 to 126, and only if by -127 to 129 |
| `Divider.DivisorFits` | FederatedLearningFPGA/alu.v:234-238 | That difference does not wrap for divisors of exponent up to 252, nor of 253 but for the two largest mantissas |
| `Divider.TopDivisorsWrap` | FederatedLearningFPGA/alu.v:234-238 | For divisors of exponent 254, all but the four smallest mantissas, the difference wraps and the reciprocal is 2^256 too large |
| `Divider.DivisionIsAccurate` | FederatedLearningFPGA/alu.v:180-299 | With the ITER + 3rd enabled clock the result register holds the quotient of any dividend but plus zero that accurately, for the divisors of `DivisorFits` |
| `NewtonStep.StepOnReals` | FederatedLearningFPGA/alu.v:215-232 | The error of one step on reals with the roundings of its three units |
| `NewtonStep.ChordError` | FederatedLearningFPGA/alu.v:200-213 | The linear approximation 48/17 - 32/17 d, with the literals of the circuit, is within 0.0589 on [1/2, 1] |
| `MultiplyAccumulate.AccumulatorUnit.Clock` | FederatedLearningFPGA/neuron.v:63-85 | One clock edge computes the specified transition |
| `MultiplyAccumulate.RunTakesExactly` | FederatedLearningFPGA/neuron.v:63-85 | After NUM_INPUTS + 1 enabled clocks the result is the left fold of multiplier and adder plus the bias, and the unit is ready for the next run |
| `MultiplyAccumulate.ResetStartsOver` | FederatedLearningFPGA/neuron.v:63-85 | After a reset edge, whatever was under way, the run is that of a new unit |
| `MultiplyAccumulate.ZeroIsNeutralIff` | FederatedLearningFPGA/alu.v:61-120 | The zero accumulator, read with a hidden bit, is neutral if and only if the other operand's exponent is at least 24 (or it is negative with exponent 0) |
| `MultiplyAccumulate.DotBound` | FederatedLearningFPGA/neuron.v:31-54 | Positive terms in range: the accumulator is at most the exact dot product and lacks at most one rounding per term |
| `MultiplyAccumulate.WeightedSumBound` | FederatedLearningFPGA/neuron.v:21-87 | A whole run over positive terms lies in [(1 - 2^-23)^(n+1) * exact, exact] |
| `MultiplyAccumulate.SignedSumBound` | FederatedLearningFPGA/neuron.v:21-87 | A whole run over terms and a bias of any signs is within a gain of about 2(n+1) parts in 2^23 of the sum of absolute values, as long as no step adds exact negatives |

## Left out

- Sockets, HTTP, libwebsockets, ESP-IDF, threads and mutexes: only the protocol steps they trigger are modelled, each handler as one step.
- Fair scheduling: `FinishesIff` says when the last round can still end, not that it will; that depends on which step comes when. In `Federation` clients may check again after a refusal.
- Finishing.FinishesIff: clients that do not wait for their own submissions are excluded, as in all properties of runs.
- Unregistered senders, training counts that are not positive and models of another shape: the handler dereferences NULL or walks off a list; the properties of runs assume well-behaved clients.
- Rounding of the averaged weights and overflow of the 32-bit training counter: reals and unbounded integers in the model.
- Training.BackPropagation: layers, neurons and weights are sequences in the training module, as its walks change no links; hidden layers of different widths are excluded, where `CopiesSufficeIff` shows that the code leaves its buffers.
- NetworkJson.JSONToFederatedLearning: a layer is linked to the network, and a neuron to its layer, after its own list is built instead of before; the two touch different fields.
- The linked list of registered clients: a sequence in `Rounds`.
- Pointer linking inside the parser: it yields the items as values; linking is modelled in `ItemList`.
- Double conversion in `strtod` and `sprintf`: a number whose literal has a point or an exponent, or is out of the 32-bit range, is identified with its literal (also one like `1e3` that denotes a 32-bit integer, which the code prints with `%d`), NaN and infinities, which are printed as null, are left out, and floats of a model are assumed to survive printing and reading.
- JsonAccess.CompareItems: numbers are compared by their literals, so 1 and 1.0 differ in the model, and not with a relative tolerance; the shortcut for one and the same pointer is not modelled.
- Raw items, references and const strings in the printer and parser, custom allocation hooks with an initial size of zero, allocation failures, and locales with another decimal point.
- `cJSON_ParseWithLength` and text without a terminator: only the entry with a C string is modelled, where all reads are in bounds.
- Strings with NUL: a four-digit escape of zero yields a NUL byte in the value, which C functions then read as the end.
- `cJSON_Minify`, `cJSON_Create*Array`, the `Add*ToObject` helpers, replacing and detaching by name: combinations of what is modelled.
- ItemList.Item.ReplaceItemViaPointer: does not model the deletion of the replaced item.
- ItemCopy.Duplicate: allocation failures are not modelled, so the failure path that deletes the copy is missing.
- MessageQueues.MessageBuffer.Insert: the 15-byte address field is a string of any length.
- A submission that is cut off by a transport error: in `Protocol` it is sent or freed unsent; what its first part does to the buffer is stated in `Delivery`.
- Interleaving.BothHeardIff: two clients whose texts fit the buffer together; with more bytes pieces are refused and the refused session is closed.
- Frames.WebSocketClient.SendWithExactOpcode: reconnecting after an error and freeing the buffers are not modelled; the opcode byte is its FIN bit and the rest.
- Softmax before the last layer: computed in the model as in the code, from sums over the last layer, but nothing is claimed of its results.
- `InitializeNeuralNetWork`, training over CSV data, loss functions, performance metrics and printing.
- Divider.QuotientIsAccurate: the two largest mantissas at divisor exponent 253 and the four smallest at 254, whose reciprocal may round to either side of a power of two, are decided by `RescaledIff` only; which quotients are reported as zero or infinity is decided by `InfinityIff`.
- FloatUnits.SameSignRounds: a result of exponent 255 is read as a number of that exponent; `SumOverflowsIff` says when there is one.
- MultiplyAccumulate.WeightedSumBound: terms of mixed signs have no relative bound; `SignedSumBound` gives an absolute one, for product exponents from 24 on.
- The exponential, the sequencing of hidden and softmax neurons and the layer control of the FPGA design.
- The CP210X drivers, `DeepLearning/main.c` and the second copy of the JSON library.
