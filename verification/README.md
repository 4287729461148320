# Verification of the shine utility code

A Dafny model of the codecs, parsers, hashes, queue and send path that the robot-control server in this repository
carries itself, and proofs of what they promise.

Every modelled operation appears twice. A function says what it computes; properties of that function are proved as
lemmas. A method, in a class where the source has an object, follows the source loop by loop and is proved to compute
that function, so that every lemma holds of it. What a function computes is in turn fixed from outside: by the layout
of the bytes, by laws that hold for all inputs, and for the ciphers and hashes by the examples that their standards
print.

| files | what they model |
|---|---|
| `Serial`, `SerialWire`, `SerialProofs`, `SerialRoundTrip`, `SerialCodec` | the binary serializer: base-128 sizes, sign-magnitude integers, containers, length-prefixed structs that tolerate older and newer peers |
| `AesTables`, `AesField`, `AesColumns`, `AesSpec`, `AesDiffusion`, `AesAnswers`, `AesImpl` | the AES cipher with its tables, and the padding wrapper |
| `Json`, `JsonProofs`, `JsonReformat`, `JsonLayout`, `JsonMembers`, `JsonPrefix`, `JsonParser` | the JSON tree, the recursive-descent parser and the pretty printer |
| `QueueSpec`, `Queue` | the blocking queue as a state machine of threads, and its object |
| `Http`, `HttpProofs`, `HttpText`, `HttpDelivery`, `HttpChunks`, `HttpChunkedDelivery`, `HttpReuse`, `HttpClient` | printing responses, and the incremental client with its fragments, its chunks and its repeated calls |
| `Blocks`, `WordBits`, `Sha1Spec`, `Sha1Answers`, `Sha1`, `Md5Spec`, `Md5Answers`, `Md5` | the streaming hashes, with their block functions |
| `SendSpec`, `SendPath` | the non-blocking send path against any kernel |
| `Text`, `Base64` | splitting, replacing, Base64 |
| `Bits`, `Buffers`, `Strings`, `Wrappers` | shifts and ors of numbers, text at a position of a buffer, `std::string::find`, an option type |

`dafny verify dfyconfig.toml` checks the project.

Some words used below:

- A serializer *target* is the C++ object a decoder reads into. It is *fresh* when it holds nothing that decoding
  would keep: the list, map and set decoders add to what is there.
- A JSON tree is *lexically sound* when the keys of its objects are sorted, not empty and free of double quotes, and
  its strings and numbers are texts the parser takes as such.
- An HTTP response is *well-formed* when its version is not empty, version, keys and values keep to one line, the
  version has no blank, no key contains colon and blank, no entry is a Content-Length or a chunked Transfer-Encoding,
  and the body is shorter than 2^63.
- The kernel of the send path is a finite script of answers, after which it would block. Nothing else is known of it.
- What comes from outside is a parameter: the expanded AES key, the bytes received, which sleeper a notification
  wakes, the order in which threads run and a container is walked.

Where comments or names in the source and its code disagree, the code is followed. In particular the MD5 object's flag
for a finished digest never takes effect, since `init` clears it again: every call computes the digest anew, from a
buffer that the call before has overwritten.

Some promises turn out not to hold for all inputs. They are proved with the exact condition under which they do, and
with inputs that fail:

- decoding into a target that is not fresh: `RoundTripIffFresh`, `Witness`;
- reading pretty-printed JSON back: `DecodeUndoesFormatIff`, `QuotedIff`, `LoneTrueIsRefused`;
- formatting formatted JSON once more: `FormatIsIdempotentIff`, `TrailingComma`;
- receiving a response whose header block is longer than 1024 bytes: `DeliveredIffHeaderFits`, `LongHeaderRefused`;
- receiving a chunked response that is cut anywhere: `EveryCutIff`, `FirstChunkLost`, `LateCutFails`;
- using a synchronous HTTP client again after a chunked response, since `response::clear` leaves the chunk flag set:
  `ReusableIff`, `StuckAfterChunked`;
- asking an MD5 object for its digest twice: `SameDigestAgain`, `SameDigestIff`, `OtherDigestAgain`, and for the
  message it stands for afterwards `MessageKeptIff`.

## Model

| member | source | states |
|---|---|---|
| `SerialProofs.SchemaEvolution` | Include/shine_serial/shine_serial.hpp:146-192 | An object written under one schema and read into a fresh target of a compatible one (one struct field list a prefix of the other, recursively through structs, arrays, lists and map values) always decodes, to the merged value, and the cursor stands right behind the writer's bytes whatever follows them |
| `SerialProofs.SchemaEvolutionOfStruct` | Include/shine_serial/shine_serial.hpp:157-192 | The same read field by field: common fields take the written values, fields the writer does not know keep their defaults, fields the reader does not know are skipped |
| `SerialRoundTrip.CommonFieldValue` | Include/shine_serial/shine_serial.hpp:146-192 | A common field of the same type that starts fresh takes exactly the value written |
| `SerialProofs.CompatibleReads` | Include/shine_serial/shine_serial.hpp:141-150 | Compatible schemas are enough for every object of the writer to be readable |
| `SerialProofs.DecodeEncoding` | Include/shine_serial/shine_serial.hpp:178-192 | Main theorem for any target contents and any place in a buffer: decoding an encoded object ends exactly behind it with the target merged with the object (vectors overwritten and resized, forward lists, maps and sets added to) |
| `SerialProofs.DecodeVector` | Include/shine_serial/shine_serial.hpp:452-499 | The vector, deque and list case: size, resize, elements in place |
| `SerialProofs.DecodeForwardList` | Include/shine_serial/shine_serial.hpp:502-527 | Elements written last first and pushed to the front come back in order, in front of what the target held |
| `SerialProofs.DecodeMap` | Include/shine_serial/shine_serial.hpp:415-440 | Every entry is offered to the map in writing order; a key already present keeps its value |
| `SerialProofs.DecodeSet` | Include/shine_serial/shine_serial.hpp:529-548 | Every member is added to the set |
| `SerialProofs.DecodeStruct` | Include/shine_serial/shine_serial.hpp:167-192 | The length prefix delimits the struct: whatever fields the reader has, it ends at the end of the writer's bytes |
| `SerialProofs.DecodeFields` | Include/shine_serial/shine_serial.hpp:146-150 | The field loop: it stops at the end of the writer's fields or of the reader's |
| `SerialProofs.SizeRoundTrip` | Include/shine_serial/shine_serial.hpp:207-246 | Base-128 sizes of any magnitude read back at any position, ending behind them |
| `SerialProofs.MagnitudeRoundTrip` | Include/shine_serial/shine_serial.hpp:248-283 | The base-64 magnitude reads back whether or not the sign bit is set in its first byte |
| `SerialProofs.IntRoundTrip` | Include/shine_serial/shine_serial.hpp:248-290 | Every encodable integer of every width and signedness reads back, through the conversions to and from the unsigned size type |
| `SerialProofs.WrapExact` | Include/shine_serial/shine_serial.hpp:276-287 | In range, reduction to the C++ width loses nothing, also through the negation of the magnitude |
| `SerialRoundTrip.RoundTripIffFresh` | Include/shine_serial/shine_serial.hpp:415-548 | Decoding into a target gives back every written value of the type, in every buffer, if and only if the target is fresh (no stale list, map or set contents, also inside structs and vectors) |
| `SerialRoundTrip.FreshGivesValue` | Include/shine_serial/shine_serial.hpp:415-548 | On a fresh target the merged value is the value of the object written |
| `SerialRoundTrip.Witness` | Include/shine_serial/shine_serial.hpp:435-440 | For every target that is not fresh there is an object whose value it does not take on |
| `SerialRoundTrip.MapValue` | Include/shine_serial/shine_serial.hpp:415-424 | A map written with distinct keys has each of its entries and nothing else as its value |
| `SerialRoundTrip.MergedMap` | Include/shine_serial/shine_serial.hpp:426-440 | What a target map holds after reading: a key that was there keeps its value, a new key has the value of the first entry written with it, and there are no other keys |
| `SerialWire.WireIff` | Include/shine_serial/shine_serial.hpp:167-548 | The bytes of every object, told from the layout and not from the encoder: a bool is one byte, 1 or 0, a byte is itself, sizes and magnitudes are positional digits with bit 7 on all but the last, bit 6 of the first byte is the sign, keys stand before values, forward lists last element first, and a struct after its length in bytes |
| `SerialWire.DigitsIff` | Include/shine_serial/shine_serial.hpp:207-262 | The digit loops write exactly the digits of the number to the base 128 or 64, the least significant first and no zero at the end |
| `SerialWire.DecSizeReads` | Include/shine_serial/shine_serial.hpp:226-246 | Every run of digits is read by position, also one longer than the encoder writes |
| `SerialWire.DecIntReads` | Include/shine_serial/shine_serial.hpp:265-290 | Every run of digits is read by position, reduced to its type and negated when bit 6 of its first byte is set |
| `SerialWire.DigitsWithoutEnd` | Include/shine_serial/shine_serial.hpp:226-283 | Digits that do not end before the buffer does are refused |
| `SerialWire.OneByte` | Include/shine_serial/shine_serial.hpp:296-312 | Any byte is read as a bool, true exactly if it is 1, and as itself |
| `SerialWire.StructReads` | Include/shine_serial/shine_serial.hpp:182-192 | At the end of the buffer or with size zero a struct leaves its target alone, with a size beyond the buffer it fails, and otherwise it takes at least the bytes it announces |
| `Serial.Dec` | Include/shine_serial/shine_serial.hpp:182-192 | On arbitrary bytes of arbitrary type decoding is total, reads inside the buffer only, and on success the cursor has neither moved back nor passed the end |
| `Serial.DecSize` | Include/shine_serial/shine_serial.hpp:226-246 | A size that is accepted takes at least one byte and ends inside the buffer |
| `Serial.DecInt` | Include/shine_serial/shine_serial.hpp:265-290 | An integer that is accepted takes at least one byte and ends inside the buffer |
| `Serial.DecStruct` | Include/shine_serial/shine_serial.hpp:182-192 | Nested structs keep the cursor between its place and the end of the buffer, also when the prefix lies |
| `SerialCodec.EncodeSize` | Include/shine_serial/shine_serial.hpp:207-219 | Appends the base-128 size, or inserts it at a position without disturbing what is around it |
| `SerialCodec.EncodeInteger` | Include/shine_serial/shine_serial.hpp:247-262 | Appends sign and magnitude; the prefix of the buffer is unchanged |
| `SerialCodec.EncodeField` | Include/shine_serial/shine_serial.hpp:292-548 | Appends the encoding of any object to any buffer, leaving what was there as a prefix |
| `SerialCodec.EncodeVector` | Include/shine_serial/shine_serial.hpp:452-487 | Size, then every element in order |
| `SerialCodec.EncodeMap` | Include/shine_serial/shine_serial.hpp:415-424 | Size, then every key and value in iteration order |
| `SerialCodec.EncodeForwardList` | Include/shine_serial/shine_serial.hpp:502-514 | Elements inserted one before the other, the size inserted in front of all, give the reversed encoding |
| `SerialCodec.EncodeStruct` | Include/shine_serial/shine_serial.hpp:167-171 | The length inserted in front of the body afterwards is the length of the body |
| `SerialCodec.DecodeSize` | Include/shine_serial/shine_serial.hpp:226-246 | The loop that ors seven bits at a time into the size computes the decoded size, or fails on a buffer that ends inside it |
| `SerialCodec.DecodeInteger` | Include/shine_serial/shine_serial.hpp:265-290 | Sign bit, digit loop and negation give the decoded integer, or fail without moving the cursor |
| `SerialCodec.OrDigits` | Include/shine_serial/shine_serial.hpp:273-283 | The loop that ors every digit into a variable of the integer type, cut to its width and sign-extended at every step, ends with the magnitude reduced once |
| `SerialCodec.OrIntoAdds` | Include/shine_serial/shine_serial.hpp:276 | One such step: or-ing a shifted digit into the variable, through the conversion to and from the size type, adds the digit to the magnitude behind it |
| `SerialCodec.DecodeField` | Include/shine_serial/shine_serial.hpp:292-548 | The decoding methods refine the decoding function: same success, same value, same cursor |
| `SerialCodec.DecodeVector` | Include/shine_serial/shine_serial.hpp:459-471 | Resize, then every element decoded in place |
| `SerialCodec.DecodeForwardList` | Include/shine_serial/shine_serial.hpp:516-527 | Every element decoded and put in front |
| `SerialCodec.DecodeMap` | Include/shine_serial/shine_serial.hpp:426-440 | Every key and value decoded and emplaced |
| `SerialCodec.DecodeSet` | Include/shine_serial/shine_serial.hpp:536-548 | Every member decoded and emplaced |
| `SerialCodec.DecodeStruct` | Include/shine_serial/shine_serial.hpp:182-192 | Empty rest, zero size, short rest, fields, and the jump to the announced end |
| `SerialCodec.DecodeFields` | Include/shine_serial/shine_serial.hpp:146-150 | Fields decoded in order until the announced bytes are used up |
| `AesSpec.InvCipherUndoesCipher` | Include/util/aes.hpp:575-638 | For every block, every expanded key and 10, 12 or 14 rounds, the inverse cipher applied to the cipher gives the block |
| `AesSpec.Meet` | Include/util/aes.hpp:588-631 | Going back to round r from the cipher text meets the forward state in the middle of round r |
| `AesSpec.InvMixUndoesMixColumns` | Include/util/aes.hpp:387-421 | The inverse column mixing undoes the column mixing on every state |
| `AesColumns.InvMixUndoesMix` | Include/util/aes.hpp:343-348 | On a column, through the table lookups: the product with the inverse coefficients undoes the product with the coefficients, in GF(2^8) modulo x^4 + 1 |
| `AesSpec.InvShiftUndoesShift` | Include/util/aes.hpp:423-461 | The inverse row shifts undo the row shifts |
| `AesSpec.InvSubUndoesSub` | Include/util/aes.hpp:464-490 | The inverse substitution undoes the substitution on every state |
| `AesSpec.AddRoundKeyTwice` | Include/util/aes.hpp:375-385 | Adding a round key twice changes nothing |
| `AesTables.InvSBoxUndoesSBox` | Include/util/aes.hpp:267-303 | The table inv_s_box inverts the table s_box on all 256 bytes |
| `AesTables.GmultIsProduct` | Include/util/aes.hpp:7-265 | The rows of gmult_aes in use hold products in GF(2^8) modulo x^8 + x^4 + x^3 + x + 1 |
| `AesTables.ProductIsLinear` | Include/util/aes.hpp:7-265 | Multiplication by a coefficient distributes over exclusive or |
| `AesField.SBoxIff` | Include/util/aes.hpp:267-284 | The S-box, for all x and y: s_box[x] is the affine map of y exactly if y is the multiplicative inverse of x in GF(2^8), zero being its own |
| `AesField.GmultIsTimes` | Include/util/aes.hpp:7-265 | The table lookups are products of polynomials modulo x^8 + x^4 + x^3 + x + 1, one shifted copy for every bit of the coefficient |
| `AesDiffusion.ColumnOfRound` | Include/util/aes.hpp:588-593 | A round computes each column from four substituted bytes, one of each row, mixed and with the key added; the last round leaves out the mixing |
| `AesDiffusion.OneByteBecomesAColumn` | Include/util/aes.hpp:588-593 | States that differ in exactly one byte differ one round later in exactly the four bytes of the column that the byte is shifted to |
| `AesDiffusion.OneByteBecomesAll` | Include/util/aes.hpp:588-593 | And two rounds later in every byte |
| `AesAnswers.Answer128` | Include/util/aes.hpp:575-604 | The example of FIPS 197 C.1: the printed expanded key takes the block to 69c4e0d86a7b0430d8cdb78070b4c55a |
| `AesAnswers.Answer192` | Include/util/aes.hpp:575-604 | The example of FIPS 197 C.2, with 12 rounds |
| `AesAnswers.Answer256` | Include/util/aes.hpp:575-604 | The example of FIPS 197 C.3, with 14 rounds |
| `AesSpec.DecodeUndoesEncode` | Include/util/aes.hpp:648-694 | decode(encode(d)) == d for byte strings of every length, the checks of the decoder always pass on what the encoder makes of a non-empty string, and the length is that of d, its padding and one byte |
| `AesSpec.BlocksRoundTrip` | Include/util/aes.hpp:665-689 | Enciphering block by block and deciphering block by block gives the data |
| `AesSpec.Padding` | Include/util/aes.hpp:655-659 | Fewer than 16 bytes are added and they complete the last block |
| `AesSpec.ZeroPadded` | Include/util/aes.hpp:648-673 | Data that leave a block open are enciphered as if they ended in zeros: one zero more changes only the count in the last byte, by one |
| `AesSpec.DecodedLength` | Include/util/aes.hpp:675-694 | Decoding gives nothing unless the length and the last byte fit, and otherwise all blocks less the bytes that were added |
| `AesImpl.CoefMult` | Include/util/aes.hpp:343-348 | The four table sums are the column product |
| `AesImpl.AddRoundKey` | Include/util/aes.hpp:375-385 | The in-place loop adds the part of the key of the round to the state |
| `AesImpl.MixColumns` | Include/util/aes.hpp:387-403 | The gather, multiply, scatter loops mix every column |
| `AesImpl.InvMixColumns` | Include/util/aes.hpp:405-421 | The same with the inverse coefficients |
| `AesImpl.ShiftRows` | Include/util/aes.hpp:423-442 | The byte-by-byte rotations shift row i by i places |
| `AesImpl.InvShiftRows` | Include/util/aes.hpp:444-461 | The opposite rotations undo that |
| `AesImpl.SubBytes` | Include/util/aes.hpp:464-476 | The loop looks every byte up |
| `AesImpl.InvSubBytes` | Include/util/aes.hpp:479-490 | The loop looks every byte up in the inverse table |
| `AesImpl.Cipher` | Include/util/aes.hpp:575-604 | The round loop computes the cipher of the block and writes nothing but its place of the output |
| `AesImpl.InvCipher` | Include/util/aes.hpp:609-638 | The round loop computes the inverse cipher of the block |
| `AesImpl.Aes.Encode` | Include/util/aes.hpp:648-673 | The block loop and the appended pad byte compute the encoding |
| `AesImpl.Aes.Decode` | Include/util/aes.hpp:675-694 | The checks, the block loop and the cut compute the decoding |
| `AesImpl.Aes.RoundTrip` | Include/util/aes.hpp:641-694 | One object: encoding then decoding any string gives it back |
| `JsonProofs.DecodeUndoesFormatIff` | Include/util/json.hpp:698-762 | For every lexically sound tree rooted at an object or array, decoding the pretty-printed text gives exactly the tree back, using all of the text, if and only if no array element anywhere is empty and no array ends in a boolean or null |
| `JsonProofs.DecodeOfFormat` | Include/util/json.hpp:190-236 | What decoding makes of the pretty-printed text of any such tree: nothing if some array ends in a boolean or null, otherwise the tree without its empty array elements, from the leaves up |
| `JsonProofs.DecodeNode` | Include/util/json.hpp:292-378 | The same for a node at any place of a text, at any indentation |
| `JsonProofs.DecodeKids` | Include/util/json.hpp:190-236 | The same for the children loop from any child on |
| `JsonProofs.PrintableIsKept` | Include/util/json.hpp:201-211 | A tree without empty array elements and last symbols is neither refused nor pruned |
| `JsonProofs.KeptIsPrintable` | Include/util/json.hpp:201-211 | A tree that reading leaves as it is has no empty array element at any depth |
| `JsonProofs.QuotedIff` | Include/util/json.hpp:144-172 | A printed string is read back exactly if every double quote in it follows a backslash and it does not end in one: the printer does not escape and the parser does not unescape |
| `JsonProofs.SymbolBeforeBracket` | Include/util/json.hpp:174-188 | true, false and null with a closing bracket behind them are refused |
| `JsonReformat.FormatIsIdempotentIff` | Include/util/json.hpp:687-696 | For every text that is accepted with a lexically sound tree: formatting the formatted text changes nothing if and only if the tree is a string, an object or an array and no array in it ends in a boolean or null |
| `JsonReformat.TrailingComma` | Include/util/json.hpp:174-222 | The text [true,] is accepted and formatted, and its formatted text is refused: the comma lets the symbol in, the empty element behind it is dropped, and the print ends in the symbol |
| `JsonReformat.DecodedIsTidy` | Include/util/json.hpp:190-236 | No accepted text gives a tree with an empty array element at any depth, or with a key at its root |
| `JsonReformat.ScalarAlone` | Include/util/json.hpp:292-378 | Of the scalars only a string is read back when its printed text stands alone: numbers and symbols need a character behind them |
| `JsonProofs.LoneTrueIsRefused` | Include/util/json.hpp:174-188 | A tree that is lexically sound and not read back: the array that holds only true |
| `JsonLayout.DecodeLayout` | Include/util/json.hpp:190-378 | For every text of an object, an array or a string, with any blanks, tabs, carriage returns and line feeds between its tokens, either quote, members in any order and anything behind it: decoding refuses it if some array ends in true, false or null, and otherwise gives the tree it stands for and ends at its last character |
| `JsonLayout.LayoutDoesNotMatter` | Include/util/json.hpp:90-99 | Texts with the same tokens decode to the same tree or are both refused, whatever their gaps and quotes: compact, tabbed and CRLF texts are alike |
| `JsonLayout.ReadValue` | Include/util/json.hpp:331-377 | The same for a value at any place of a text |
| `JsonLayout.ReadParts` | Include/util/json.hpp:190-236 | The same for the children from any child on |
| `JsonMembers.ObjectMembers` | Include/util/json.hpp:212-218 | What the members of a text become: sorted by key, and of several with one key the first |
| `JsonMembers.ArrayElements` | Include/util/json.hpp:201-211 | What the elements of a text become: all of them in order but those without content |
| `JsonMembers.EmplaceIff` | Include/util/json.hpp:217 | Emplacing into a sorted map keeps it sorted and adds the node exactly if its key is new |
| `JsonPrefix.Truncated` | Include/util/json.hpp:190-236 | No proper prefix of the text of an object or an array is accepted, in any layout |
| `JsonPrefix.GrowChildren` | Include/util/json.hpp:190-236 | Children that are accepted are accepted with any text behind them, with the same result |
| `JsonPrefix.NumberIff` | Include/util/json.hpp:122-142 | A run of digits, points and minus signs is accepted exactly if it has at most one point, not at its end and not behind the sign, and no minus sign unless it starts with one |
| `JsonPrefix.SeparatorNeeded` | Include/util/json.hpp:220-236 | A child with neither a comma nor the closing bracket behind it is refused |
| `JsonReformat.PrettyText` | Include/util/json.hpp:698-762 | The printed text of a small tree, character by character: a line for every child, four blanks for every level |
| `Json.Decode` | Include/util/json.hpp:292-378 | The mutually recursive parser ends on every input, never moves its cursor back and on success leaves it within the text |
| `Json.DecodeChildren` | Include/util/json.hpp:190-236 | The children loop makes progress and stays within the text |
| `Json.DecodeType` | Include/util/json.hpp:320-364 | From the colon on, the cursor stays within the text |
| `Json.ParseString` | Include/util/json.hpp:144-172 | An accepted string ends behind its closing quote, within the text |
| `Json.ParseNumber` | Include/util/json.hpp:122-142 | An accepted number ends within the text |
| `Json.ParseSymbol` | Include/util/json.hpp:174-188 | An accepted symbol leaves the cursor before the end of the text |
| `JsonParser.Parser.DecodeNode` | Include/util/json.hpp:292-318 | The method with the shared cursor computes what the parsing function does, or fails with it |
| `JsonParser.Parser.DecodeTyped` | Include/util/json.hpp:320-330 | The same from the type step on |
| `JsonParser.Parser.DecodeValued` | Include/util/json.hpp:331-377 | The same from the value on |
| `JsonParser.Parser.ParseChildren` | Include/util/json.hpp:190-236 | The children loop computes what the recursive function does |
| `JsonParser.Parser.ParseStringNode` | Include/util/json.hpp:144-172 | The search that passes over quotes behind a backslash finds the first unescaped quote |
| `JsonParser.Parser.ParseNumberNode` | Include/util/json.hpp:122-142 | The scan and its checks accept exactly the number texts |
| `JsonParser.Parser.NumberChecks` | Include/util/json.hpp:131-137 | The four conditions on the first and last point, the last character, the first minus and the two first characters accept exactly the number texts |
| `JsonParser.Parser.ParseSymbolNode` | Include/util/json.hpp:174-188 | The symbol and what must follow it |
| `JsonParser.Parser.SkipWhite` | Include/util/json.hpp:90-99 | The loop stops at the first character that is not white space |
| `JsonParser.Printer.Print` | Include/util/json.hpp:698-762 | The appending printer produces the text of the node |
| `JsonParser.Printer.PrintChildren` | Include/util/json.hpp:735-760 | The children in order, separated by commas, one indentation deeper |
| `QueueSpec.ReachableInv` | Include/queue/queue.hpp:32-71 | The invariant holds in every state any number of producers and consumers can reach, with spurious wakeups and new consumers stealing items |
| `QueueSpec.NoOneForgotten` | Include/queue/queue.hpp:32-45 | Whenever somebody sleeps un-notified, there are at least as many notified threads on their way as there are items, and each of them can run and takes the front item: a non-empty queue never leaves everyone asleep |
| `QueueSpec.StepKeepsInv` | Include/queue/queue.hpp:32-71 | Every step of every thread keeps the invariant |
| `QueueSpec.History` | Include/queue/queue.hpp:32-71 | Items are delivered in Put order, all before anything still queued, and every item put is in exactly one of delivered, queued, erased and cleaned |
| `QueueSpec.FirstInFirstOut` | Include/queue/queue.hpp:32-45 | Without erasing and cleaning, what was put is what was delivered followed by what is queued |
| `QueueSpec.EraseKeepsInv` | Include/queue/queue.hpp:47-58 | Erasing keeps order and account |
| `Queue.RequestQueue.Put` | Include/queue/queue.hpp:32-36 | Appends the item and notifies one sleeper, as one step of the state machine |
| `Queue.RequestQueue.Get` | Include/queue/queue.hpp:38-45 | Takes the front item, or goes to sleep if there is none, also after being woken |
| `Queue.RequestQueue.Erase` | Include/queue/queue.hpp:47-58 | Removes the first equal item and only that |
| `Queue.RequestQueue.QueueClean` | Include/queue/queue.hpp:64-71 | Empties the queue |
| `Queue.RequestQueue.QueueLength` | Include/queue/queue.hpp:73-76 | The number of items |
| `HttpDelivery.DeliveredIffHeaderFits` | Include/http/hpp/http_client.hpp:68-107 | For every well-formed response: printing it, cutting the text into non-empty fragments anywhere and feeding them to a fresh client of either mode never fails, completes with the last fragment and not before, and gives back version, status code, entries and body, for all cuts, if and only if the header block has at most 1024 bytes |
| `HttpDelivery.SplitDelivers` | Include/http/hpp/http_client.hpp:68-107 | The positive half for one split: every earlier call succeeds and leaves the response pending |
| `HttpDelivery.LongHeaderRefused` | Include/http/hpp/http_client.hpp:82-89 | The other half: a longer header block is refused when its first 1024 bytes come alone |
| `HttpDelivery.OneFragment` | Include/http/hpp/http_client.hpp:68-107 | From the client after m bytes, one more fragment of n bytes leads to the client after m + n bytes, in the middle of the header, across its end, or in the body |
| `HttpDelivery.FragmentsArrive` | Include/http/hpp/http_client.hpp:68-107 | After any prefix of any split the client is a function of the number of bytes seen |
| `HttpDelivery.ExtraBytesTaken` | Include/http/hpp/http_client.hpp:101-107 | Bytes behind the body in the same fragment become part of it, while the position goes by the announced length |
| `HttpProofs.HeaderReadsBack` | Include/http/hpp/http_parser.hpp:284-338 | decode_header reads a printed header block back whatever follows it in the buffer; the NUL it writes is the only change |
| `HttpProofs.FieldsReadBack` | Include/http/hpp/http_parser.hpp:316-335 | The entry loop reads the printed lines back one by one and ends with the last |
| `HttpProofs.HeaderEnd` | Include/http/hpp/http_parser.hpp:286-289 | The blank line is first found at the very end of the header block |
| `HttpProofs.HeaderMissing` | Include/http/hpp/http_client.hpp:82-89 | No proper prefix of a header block contains a blank line |
| `HttpProofs.ParsedPlainly` | Include/http/hpp/http_parser.hpp:330-334 | Inert entries are kept in order, Content-Length becomes the length of the body |
| `HttpProofs.AtoiUndoesDecimal` | Include/http/hpp/http_parser.hpp:305-345 | atoi and atoll read back what was printed in decimal |
| `HttpText.AtoiReads` | Include/http/hpp/http_parser.hpp:305-345 | On white space, a sign, digits and anything behind them the value is that of the digits by position, with the sign |
| `HttpText.Printed` | Include/http/hpp/http_parser.hpp:340-368 | What is printed, with every separator: version, code, phrase, the entries, the length of a body that is there, a blank line, the body |
| `HttpText.Successes` | Include/http/hpp/http_parser.hpp:61-104 | The phrases for 101 and 200 to 206 |
| `HttpText.Redirects` | Include/http/hpp/http_parser.hpp:61-104 | The phrases for 300 to 307 |
| `HttpText.ClientErrors` | Include/http/hpp/http_parser.hpp:61-104 | The phrases for 400 to 407 |
| `HttpText.LateClientErrors` | Include/http/hpp/http_parser.hpp:61-104 | The phrases for 408 to 415 |
| `HttpText.ServerErrors` | Include/http/hpp/http_parser.hpp:61-104 | The phrases for 500 to 505 |
| `HttpText.OthersAreUnknown` | Include/http/hpp/http_parser.hpp:104 | Every other code is unknown |
| `HttpChunks.ChunksReadBack` | Include/http/hpp/http_client.hpp:108-141 | For every list of chunks, even with CRLF in the data and extensions on the size lines, the loop on the buffered coding ends with the concatenated data and the position exactly behind the last chunk |
| `HttpChunks.ChunkReadsBack` | Include/http/hpp/http_client.hpp:114-131 | One turn of the loop takes exactly one chunk |
| `HttpChunkedDelivery.EveryCutIff` | Include/http/hpp/http_client.hpp:68-161 | For every response with a well-formed header that announces chunks, and every list of chunks: every cut of its text in two gives a fresh client the whole body if and only if the client is synchronous, the body is empty and the header block has at most 1024 bytes |
| `HttpChunkedDelivery.ChunkedDelivered` | Include/http/hpp/http_client.hpp:68-161 | A chunked response in any number of non-empty fragments is read whole by a fresh client of either mode when every cut stands before the end of the first size line and every cut in the header below 1024 bytes |
| `HttpChunkedDelivery.BoundaryCutDropsChunks` | Include/http/hpp/http_client.hpp:108-128 | A cut exactly behind the first j chunks: both calls succeed, the response is complete, and its body is that of the chunks behind the cut only |
| `HttpChunkedDelivery.FirstChunkLost` | Include/http/hpp/http_client.hpp:108-128 | So for every body with data and either mode there is a cut, behind the first chunk, that does not deliver it |
| `HttpChunkedDelivery.LateCutDelivers` | Include/http/hpp/http_client.hpp:82-147 | A cut in front of or inside the last CRLF: the synchronous client ends with the whole body and an empty buffer |
| `HttpChunkedDelivery.LateCutFails` | Include/http/hpp/http_client.hpp:82-88 | The same cut makes the asynchronous client fail: the position stands behind the buffer and the distance wraps |
| `HttpChunkedDelivery.LongHeaderCutFails` | Include/http/hpp/http_client.hpp:82-88 | A longer header fails on a cut at 1024 bytes |
| `HttpChunks.ChunkedAtOnce` | Include/http/hpp/http_client.hpp:68-156 | And when it comes in one piece |
| `HttpChunks.HtoiReadsHex` | Include/http/hpp/http_client.hpp:34-57 | htoi reads the positional value of every hexadecimal numeral, in either case, with leading zeros, with or without 0x, whatever extension follows |
| `HttpChunks.HtoiUndoesPrinting` | Include/http/hpp/http_client.hpp:34-57 | htoi undoes hexadecimal printing |
| `HttpChunks.IncompleteChunkLosesSize` | Include/http/hpp/http_client.hpp:116-124 | A chunk that is not complete: the position moves behind its size line all the same |
| `HttpChunks.IncompleteChunkIsLost` | Include/http/hpp/http_client.hpp:111-141 | One consequence: a synchronous client takes the data that then arrives for a size line, and when it starts with anything but a letter or digit the body is reported empty |
| `HttpReuse.ReusableIff` | Include/http/hpp/http_client.hpp:330-355 | A synchronous client prepared for another call delivers every well-formed response that fits, cut in any way, if and only if the response before was not chunked: clearing the response does not clear its chunk flag |
| `HttpReuse.ReusedDelivers` | Include/http/hpp/http_parser.hpp:370-374 | The positive half, whatever else the response before left behind |
| `HttpReuse.StuckAfterChunked` | Include/http/hpp/http_parser.hpp:370-374 | The other half: a plain body without a line end is taken for chunks and the call never completes |
| `HttpReuse.FeedAlike` | Include/http/hpp/http_client.hpp:68-161 | Clients that differ only in what the next header or body overwrites stay alike over every sequence of fragments |
| `HttpReuse.HeaderIgnoresRest` | Include/http/hpp/http_parser.hpp:284-338 | decode_header looks at nothing of the response before but its length, entries and chunk flag |
| `HttpClient.ResponseMessage.Clear` | Include/http/hpp/http_parser.hpp:370-374 | Length and entries are forgotten, everything else stays |
| `HttpClient.ClientBase.PrepareCall` | Include/http/hpp/http_client.hpp:330-333 | Buffer, position, step and response are cleared as the state machine says |
| `Http.Chunks` | Include/http/hpp/http_client.hpp:114-141 | The loop ends on every buffer, the position never moves back and passes a final chunk |
| `HttpClient.ReadHex` | Include/http/hpp/http_client.hpp:34-57 | The accumulator loop computes htoi |
| `HttpClient.ResponseMessage.DecodeHeader` | Include/http/hpp/http_parser.hpp:284-338 | The walk through the buffer fills the fields and writes the NUL as the decoding function says, or fails with it |
| `HttpClient.ResponseMessage.DecodeEntries` | Include/http/hpp/http_parser.hpp:316-335 | The entry loop, with Content-Length and chunked Transfer-Encoding set aside |
| `HttpClient.ResponseMessage.Encode` | Include/http/hpp/http_parser.hpp:340-368 | The appended pieces are the header block and the body |
| `HttpClient.ClientBase.RecvCallback` | Include/http/hpp/http_client.hpp:68-161 | The receive loop computes the state machine's next state, for every state and every input |
| `HttpClient.ClientBase.ReadHeader` | Include/http/hpp/http_client.hpp:80-97 | The header part: wait for the blank line, refuse from 1024 bytes on, or decode the header and go on behind it |
| `HttpClient.ClientBase.ReadBody` | Include/http/hpp/http_client.hpp:101-141 | The body part: all remaining bytes, or the chunk loop |
| `HttpClient.ClientBase.ReadChunks` | Include/http/hpp/http_client.hpp:108-141 | The chunk loop computes the chunk function |
| `Sha1Spec.StreamingDigest` | Include/util/sha1.hpp:178-256 | However a message is split over Input calls after a reset, Result is the digest of FIPS 180-1 of the whole message, exactly for messages below 2^64 bits; otherwise it fails |
| `Sha1Spec.ResultsAgree` | Include/util/sha1.hpp:178-200 | Repeated results agree |
| `Sha1Spec.FeedingAfterResultCorrupts` | Include/util/sha1.hpp:222-231 | A non-empty input after a result makes every later result fail until a reset |
| `Sha1Spec.AfterResult` | Include/util/sha1.hpp:178-256 | What any sequence of calls without a reset does to an object that has given its result |
| `Sha1Spec.CountUp` | Include/util/sha1.hpp:237-248 | The two-word counter tracks the bits and reaches zero exactly at 2^64 |
| `Blocks.PadFills` | Include/util/sha1.hpp:565-610 | The padding completes the last block and takes no block more than it needs |
| `Blocks.PadsInOneBlock` | Include/util/sha1.hpp:587-607 | What the padded message ends with when the length still fits |
| `Blocks.PadsInTwoBlocks` | Include/util/sha1.hpp:572-607 | And when it needs a block of its own |
| `Sha1.ShiftsRotate` | Include/util/sha1.hpp:631-634 | The shift-and-or of the code is the rotation of the standard for the amounts in use |
| `Sha1Spec.ConstantsAreRoots` | Include/util/sha1.hpp:457-462 | The four constants are the square roots of 2, 3, 5 and 10 to 30 binary places |
| `Sha1Spec.FunctionsByBit` | Include/util/sha1.hpp:490-532 | The logical functions bit by bit: a choice, the parity and the majority |
| `Sha1Answers.DigestOfAbc` | Include/util/sha1.hpp:455-610 | The digest of abc is that of FIPS 180-1 |
| `Sha1Answers.DigestOfLong` | Include/util/sha1.hpp:455-610 | And that of the 56 letters whose padding takes a second block |
| `Sha1.SHA1.Reset` | Include/util/sha1.hpp:144-160 | An empty message, the initial chaining value, both flags clear |
| `Sha1.SHA1.Input` | Include/util/sha1.hpp:219-256 | The object takes the data into its message, or is corrupted exactly when it was finished or the message becomes too long |
| `Sha1.SHA1.TakeByte` | Include/util/sha1.hpp:233-255 | One byte into buffer and counter, and the block processed when it is full |
| `Sha1.SHA1.CountByte` | Include/util/sha1.hpp:237-248 | Eight more bits; the object is corrupted exactly when the counter overflows |
| `Sha1.SHA1.Result` | Include/util/sha1.hpp:178-200 | Fails exactly when corrupted, otherwise hands out the digest of the message and closes it |
| `Sha1.SHA1.PadMessage` | Include/util/sha1.hpp:565-610 | Filling, length and processing leave the digest of the message in the chaining words |
| `Sha1.SHA1.StoreLength` | Include/util/sha1.hpp:600-607 | The eight stores write the two words of the length, most significant byte first |
| `Sha1.SHA1.ProcessMessageBlock` | Include/util/sha1.hpp:455-542 | The loops compute the block function of the standard |
| `Sha1.SHA1.EightyRounds` | Include/util/sha1.hpp:490-532 | The four round loops compute 80 rounds |
| `Sha1.SHA1.FillSchedule` | Include/util/sha1.hpp:471-482 | The two loops compute the word sequence |
| `Md5.MD5.GetDigest` | Include/util/md5.hpp:72-105 | Every call stores the digest of RFC 1321 of the message the object stands for, and leaves it standing for the message whose tail the last block replaced |
| `Md5Spec.MessageKeptIff` | Include/util/md5.hpp:79-104 | The object still stands for its message after a digest if and only if the tail left room for the length in its block or happened to be what the padding put there: the buffer is not put back |
| `Md5Spec.OnesAreLost` | Include/util/md5.hpp:79-104 | An object of 56 one bytes stands for 56 zero bytes after its digest |
| `Md5Spec.SameDigestAgain` | Include/util/md5.hpp:79-104 | A tail of fewer than 56 bytes gives the same digest again |
| `Md5Spec.SameDigestIff` | Include/util/md5.hpp:79-104 | Any other tail gives the same digest again if and only if the two blocks that end the padded message lead the block function to the same state from the tail and from what has replaced it |
| `Md5Answers.OtherDigestAgain` | Include/util/md5.hpp:79-104 | A message whose second digest is another one: 56 one bytes give the digest of 56 zero bytes the second time |
| `Md5Spec.HashReadsBack` | Include/util/md5.hpp:284-304 | Different states are written as different bytes |
| `Md5Spec.LaterDigestsAgree` | Include/util/md5.hpp:79-104 | From the second digest on nothing changes any more |
| `Md5.MD5.Init` | Include/util/md5.hpp:112-149 | init(a) then init(b) stands for a followed by b: state, counter and buffer are those of the concatenation |
| `Md5.InitTwice` | Include/util/md5.hpp:112-149 | Feeding a message in two parts leaves state, counter and buffer as feeding it at once does |
| `Md5.MD5.constructor` | Include/util/md5.hpp:33-47 | The object stands for the message |
| `Md5.MD5.PadAndStore` | Include/util/md5.hpp:86-99 | Padding to 56 modulo 64, the saved bit count and the state stored give the digest |
| `Md5.MD5.CountLength` | Include/util/md5.hpp:122-126 | The two-word counter with its carry tracks 8 times the length modulo 2^64 |
| `Md5Spec.CountUp` | Include/util/md5.hpp:122-126 | The arithmetic of that counter for every length |
| `Md5Spec.PositionFromCount` | Include/util/md5.hpp:119-120 | The buffer position is read off the low word |
| `Md5.MD5.Transform` | Include/util/md5.hpp:152-281 | The unrolled block function computes the 64 operations of the standard and adds them to the state |
| `Md5.MD5.Round1` | Include/util/md5.hpp:187-203 | The sixteen unrolled operations of round 1, with their rotating variable names, are sixteen steps |
| `Md5.MD5.Round2` | Include/util/md5.hpp:211-227 | Round 2 |
| `Md5.MD5.Round3` | Include/util/md5.hpp:235-251 | Round 3 |
| `Md5.MD5.Round4` | Include/util/md5.hpp:259-275 | Round 4 |
| `Md5Spec.FourSteps` | Include/util/md5.hpp:187-275 | Four steps that move the words around are four operations on words that stay |
| `Md5Spec.FunctionsByBit` | Include/util/md5.hpp:177-180 | The four functions bit by bit: two choices, the parity and a difference |
| `Md5Answers.DigestOfNothing` | Include/util/md5.hpp:72-281 | The digest of the empty message is that of RFC 1321 |
| `Md5Answers.DigestOfAbc` | Include/util/md5.hpp:72-281 | And that of abc |
| `Md5Answers.DigestOfDigits` | Include/util/md5.hpp:72-281 | And that of the ten digits eight times, which take two blocks |
| `Md5Spec.OperationPattern` | Include/util/md5.hpp:187-275 | The table of operations takes the words of the block in steps of 1, 5, 3 and 7 |
| `Md5.MD5.Decode` | Include/util/md5.hpp:297-304 | The loop reads sixteen words, low-order byte first |
| `Md5.MD5.EncodeState` | Include/util/md5.hpp:284-294 | The loop writes the state, low-order byte first |
| `Md5.MD5.EncodeCount` | Include/util/md5.hpp:284-294 | The loop writes the bit count, low-order word and byte first |
| `Md5Spec.WordUndoesBytes` | Include/util/md5.hpp:284-304 | Reading a word undoes writing it |
| `SendSpec.Conservation` | Include/net/epoll.hpp:98-195 | Over every run of sends, writability events, receives and connects, against every kernel that takes some bytes, would block or is interrupted: the bytes on the wire followed by the buffered ones are all bytes appended, in order, and the send callback was told of every byte on the wire |
| `SendSpec.StepKeepsInv` | Include/net/epoll.hpp:98-195 | Every call keeps that |
| `SendSpec.AfterEveryFlush` | Include/net/epoll.hpp:104-111 | After every flushing call, whatever came before, the buffer is empty or EPOLLOUT is set, with epoll and in the record |
| `SendSpec.NeverStranded` | Include/net/epoll.hpp:98-111 | A connection that always flushes never leaves bytes unwatched |
| `SendSpec.InterestIffLeft` | Include/net/epoll.hpp:188-194 | do_send with something to send leaves the interest set exactly if something is left |
| `SendSpec.WillingKernelDrains` | Include/net/epoll.hpp:156-185 | When nothing would block, one call sends everything through any interruptions and drops the interest |
| `SendSpec.InterestIsRecorded` | Include/net/epoll.hpp:237-252 | Over every run a connection with any recorded interest has exactly that interest with epoll, edge-triggered and with hanging up |
| `SendSpec.ReceiveWatchesInput` | Include/net/epoll.hpp:59-70 | Whatever came before, after asking to receive epoll watches for input, output is watched as before and no byte has moved |
| `SendSpec.QuietSend` | Include/net/epoll.hpp:98-111 | A send without flushing, or while writability is awaited, only adds to the buffer |
| `SendSpec.SendKeepsInput` | Include/net/epoll.hpp:188-194 | Sending does not touch the interest in input |
| `SendSpec.ConnectedDrains` | Include/net/epoll.hpp:489-503 | A finished connect tries to send whatever interest was recorded: with a kernel that keeps taking nothing is left |
| `SendPath.Connection.DoSend` | Include/net/epoll.hpp:146-195 | The loop over kernel sends computes the send step |
| `SendPath.Connection.AsyncSendV` | Include/net/epoll.hpp:98-111 | Appends every piece and sends unless told not to or already waiting for EPOLLOUT |
| `SendPath.Connection.DoMonitorEvents` | Include/net/epoll.hpp:237-252 | Records the interest and registers the same with epoll |
| `SendPath.Connection.AsyncRecv` | Include/net/epoll.hpp:59-70 | Adds the read interest and keeps the others |
| `SendPath.Connection.OnEvent` | Include/net/epoll.hpp:489-503 | A finished connect and a writability event both try to send |
| `Text.SplitIff` | Include/util/string.hpp:417-433 | What split returns: exactly the pieces that joined by the separator give the text and in which every separator is the first one met |
| `Text.PiecesAreFree` | Include/util/string.hpp:417-433 | No piece contains the separator |
| `Text.PiecesJoin` | Include/util/string.hpp:417-433 | Joining the pieces by the separator gives the text back |
| `Text.PiecesUnique` | Include/util/string.hpp:417-433 | There are no other leftmost pieces |
| `Text.Split` | Include/util/string.hpp:417-433 | The index loop returns the pieces |
| `Text.ReplaceAll` | Include/util/string.hpp:526-536 | The in-place loop ends, even when the replacement contains what it replaces, with the pieces joined by the replacement |
| `Base64.DecodeUndoesEncode` | Include/util/string.hpp:751-841 | decode_base64(encode_base64(x)) == x for byte strings of every length, in all three tail cases |
| `Base64.AlphabetIs` | Include/util/string.hpp:19-21 | The characters are those of the alphabet of RFC 4648, in its order, and no others are read |
| `Base64.StopsAtOther` | Include/util/string.hpp:802-841 | Nothing behind the first character outside the alphabet is read |
| `Base64.EncodedLength` | Include/util/string.hpp:751-795 | The output has four characters for every three bytes begun |
| `Base64.DecodedLength` | Include/util/string.hpp:802-841 | How many bytes any run of letters decodes to |
| `Base64.FillerIsCutOff` | Include/util/string.hpp:826-838 | The truncated not-found position put in for missing letters never reaches a byte that is kept |
| `Base64.SameBits` | Include/util/string.hpp:764-767 | The four sextets are the 24 bits of the three bytes |
| `Base64.PackedBits` | Include/util/string.hpp:816-818 | The three bytes of the decoder are the 24 bits of the four positions, nothing cut off |
| `Base64.GroupReadsBack` | Include/util/string.hpp:764-818 | The decoder's shifts and masks undo the encoder's |
| `Base64.EncodeText` | Include/util/string.hpp:751-795 | The buffered loop over the bytes computes the encoding |
| `Base64.DecodeText` | Include/util/string.hpp:802-841 | The buffered loop over the characters computes the decoding, up to the first character outside the alphabet |

## Left out

- Serial.DecSize: sizes are unbounded integers, so shifts by 64 and more and sums that overflow `size_t` are not modelled; nor are shifts by 64 and more in `SerialCodec.DecodeInteger`.
- Serial.Dec: what a failed decode leaves in the target and in the cursor is not said.
- SerialProofs.IntRoundTrip: the least 32- and 64-bit integers are left out, because negating them in C++ is undefined.
- Float fields of the serializer: their bytes are those of the machine's representation.
- The limits of the struct macro on the number of fields.
- AesSpec.InvCipherUndoesCipher: holds for any expanded key; the key expansion is not modelled, because the source uses three of its constants before setting them.
- Rows of the multiplication table other than 01, 02, 03, 09, 0b, 0d and 0e, which the cipher does not use.
- JsonLayout.DecodeLayout: texts with a comma behind the last child, and numbers and symbols as the root, are not layouts; `JsonReformat.TrailingComma` and `JsonReformat.ScalarAlone` speak of those.
- JSON nodes are values: sharing of child containers between nodes, the difference between a missing child container and an empty one, and the `decode_step` field as a field are not captured; the step is a parameter.
- JsonProofs.DecodeUndoesFormatIff: speaks of lexically sound trees; that a single string outside of them is not read back is `JsonProofs.QuotedIff`.
- Json.Decode: indices are not cut to 32 bits; reading at the end of the text counts as a refusal, and comparing with a symbol stops at the end.
- The compact JSON printer with its escaping, the model macros and the conversions of values.
- Queue.RequestQueue.Get: one critical section is one call; the mutex itself and fairness of the scheduler are not modelled.
- `GetQueueHead` and the use of `IsEmpty` without the lock.
- HttpClient.ClientBase.RecvCallback: what a failed call leaves behind is not said, because the connection is then closed; a callback that calls the client again is not modelled.
- HttpClient.ResponseMessage.DecodeEntries: a value without a line end makes the source compute with a null address; here it is a failure.
- Http.Chunks: chunk sizes are not cut to `int`; the chunks of the theorems are shorter than 2^31.
- HttpChunkedDelivery.ChunkedDelivered: says nothing of fragments cut further behind; `HttpChunkedDelivery.EveryCutIff` has the exact condition for all cuts in two, and what a cut inside a chunk leads to is said only where the next call takes data for the end (`HttpChunks.IncompleteChunkIsLost`).
- HttpDelivery.DeliveredIffHeaderFits: one response on a fresh client, or by `HttpReuse.ReusableIff` on a cleared one; the Content-Length branch takes all bytes that are there, so a second response in the same buffer is not claimed.
- The sockets of `sync_client::call`; HTTP requests, and decimal texts too long for `atoi` and `atoll`.
- Md5.MD5.constructor: messages are at most 2^32 - 64 bytes long, because the loop index has 32 bits.
- The hexadecimal texts of the MD5 digest.
- Sha1.SHA1.Input: the overloads for single characters and the stream operators, which call it.
- SendPath.Connection.DoSend: fatal send errors, closing and deleting the connection, a send callback that calls the connection again or refuses, and buffers of 2^31 bytes and more.
- Liveness of the send path under edge-triggered events.
- Text.ReplaceAll: the string changed in place is an argument and a result here.
- Text.Split: an empty separator, on which the source does not end; the same for an empty text to replace.
- Base64.EncodeText: the 32-bit index of the decoder; single bytes are numbers below 256 and masks are remainders.
- The serial port, the database wrapper, the servers, logging, configuration, the other event engines, number formatting, character set conversion and URL coding.
