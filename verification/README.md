# Verified models of the chain, its network and its cache

Dafny models of five parts of the repository, with proofs about all inputs, all runs or all reachable
states. `dafny verify dfyconfig.toml` checks everything.

* **JSON values** (`Json*`, `Ordering`, `Decimal`, `Strings`): `diff` and `patch`, JSON Pointer (RFC 6901),
  `flatten` and `unflatten`, `dump` against lexer and parser, and the parser against the grammar of RFC 8259.
  Values are a datatype; strings are byte strings, one `char` per byte; objects are maps that are walked in
  sorted key order. Signed and unsigned numbers are kept apart and compared as operator== does. Exceptions are
  an `Error`.
* **The CLOCK cache** (`Clock*`, `PackedFlags`, `ShardedCache`), twice: as atomic steps of any number of
  threads in every interleaving (`ClockState` and the lemmas about it, to `ClockSweep` and `ClockClients`),
  and as a class with sequential calls (`ClockShard`, `ClockHistory`, `ClockLimits`, `ClockHand`, `ClockValues`).
  `ClockAlone` shows that the two agree on a call that runs undisturbed. `PackedFlags` shows that the
  operations on the packed word do to its three parts what the models do to theirs. The mutex, the hash table,
  the circular list with its clock hand, the recycle bin and the values queued for their deleters are all part
  of the state.
* **Base58** (`Base58`, `Radix`, `Power`): the in-place base conversion and the theorem behind its buffer
  sizes.
* **Gossip, framing and the wire** (`Framing`, `SendPump`, `PeerList`, `Flooding`, `Pongs`, `Relays`,
  `BufferStream`, `Wire`, `HexText`, `Hexadecimal`, `LittleEndian`).
* **The bytecode machine** (`Vm`, `VmInstructions`, `VmMachine`, `VmCalls`, `VmBalance`, `VmExp`).

Code that changes state step by step is a class or a method with loops. It is proved equal to a
specification function, and the main results are lemmas about that function.

## Where the code differs from what it promises

Each of these is a lemma; where the promise holds on part of the inputs, the condition is exact.

* `patch(diff(s, t))`: fails for array positions from 2^31 on, because `stoi` parses the index
  (`JsonDiff.PatchOfDiff`, `JsonDiff.HugeArrayDoesNotFit`). Where operator== finds two numbers equal, the source's stays.
* An `add` makes the missing parent of its target, one level and below the first token, and a `copy` the missing
  positions of an array, where RFC 6902 (sections 4.1 and 4.5) asks for an error; a `remove` below a value without
  children does nothing (`JsonOutcomes.AddSucceedsIff`, `JsonOutcomes.CopySucceedsIff`,
  `JsonOutcomes.RemoveFromParent`). So a value can be moved into itself (`JsonOutcomes.MoveIntoItself`).
* The `copy` operation overwrites an existing array element, where RFC 6902 (section 4.5) inserts before it
  (`JsonOperations.CopyIsAddIff`).
* `unflatten(flatten(j))`: the header (json.hpp:9856-9859) excepts empty containers only. It also fails for an
  object in which the member "0" comes first, which comes back as an array (`JsonUnflatten.ZeroBecomesArray`),
  and for arrays with more than 2^31 elements (`JsonUnflatten.UnflattenEqualIff`).
* Number literals beyond 64 bits: the wrap-around test catches exactly those in which a digit makes the residue
  modulo 2^64 fall or, behind a minus sign, exceed 2^63; the others are read as different numbers
  (`JsonLexer.MisreadIff`, `JsonLexer.NegativeMisreadIff`, `JsonLexer.OverflowIsMissed`).
* The escape of a low surrogate alone is accepted and gives bytes that are not UTF-8 (`JsonUnicode.UnitTokenIs`).
* The scanner takes a byte order mark for a blank wherever it stands, and a NUL for the end of the input
  (`JsonTokens.ScannedIsToken`).
* `message(header, buf)` copies `size_` bytes from behind the header, and the buffer holds six fewer: every
  message with a size ends in six bytes from behind the buffer (message.cpp:12-17,
  `Framing.CopyStaysInsideIff`, `Framing.DeliveryIsDeterminedIff`).
* `get_packet` writes a size without the header, `receive` counts the header: only messages without a body
  get through unchanged (`Framing.PacketIsReadIff`, `Framing.BodyIsCut`).
* Decoded lists begin with as many default entries as they should have in all (`Wire.BlockBack`,
  `Wire.BlockUnchangedIff`).
* An empty buffer in hexadecimal text makes the reader resize to a huge size (`HexText.ResizeIsRightIff`).
* The strict capacity limit is passed when usage plus charge wraps around; it is kept exactly when capacity plus
  the largest charge does not (`ClockOverflow.StrictLimitIff`, `ShardedCache.StrictTotalIff`).
* EvictFromCache gives up right after its last TryEvict, although that may have made the room
  (clock_cache.cc:506-519, `ClockLimits.EvictionSucceedsIff`): a cache can refuse an entry that fits and be left
  empty (`ClockLimits.RefusedWithRoom`).
* A forced Release is documented to erase its own entry, and only if there is no other reference
  (rocksdb/cache.h:140-149). It erases whatever the key is mapped to (`ClockHistory.ForcedReleaseIff`,
  `ClockHistory.ForcedReleaseRemovesNewer`).
* `remove_peer` does not shorten the list; the removed peer may stay in it (`PeerList.RemovedStays`).
* `Exp` is exact only as long as the intermediate result fits an `int` (`VmExp.ExpIsExactIff`).

## Model

| member | source | states |
|---|---|---|
| JsonDiff.DiffApplies | iotchain/include/json.hpp:10213-10343 | applying `diff(s, t, path)` to any document that holds `s` at `path` replaces exactly that subtree by the target's value and touches nothing else; it fails, with out_of_range, exactly when a differing array position has index 2^31 or more |
| JsonDiff.PatchOfDiff | iotchain/include/json.hpp:10187-10191 | `source.patch(diff(source, target))` equals `target` under operator== when every index fits an int, and throws out_of_range in every other case |
| JsonDiff.PatchOfDiffIsTarget | iotchain/include/json.hpp:10187-10191 | and it is the target itself, number for number, when negative numbers are signed, all others unsigned, and none exceeds 63 bits |
| JsonDiff.PatchedEqualsTarget | iotchain/include/json.hpp:5523-5596 | the patched document and the target are the same for operator==, which compares signed and unsigned numbers after a cast |
| JsonDiff.SmallArraysFit | iotchain/include/json.hpp:9362-9387 | two documents whose arrays have at most 2^31 elements always fit, so that patch always succeeds on their difference |
| JsonDiff.HugeArrayDoesNotFit | iotchain/include/json.hpp:10187-10191 | a concrete pair of documents whose difference does not apply: an array of 2^31 + 1 elements against the empty array |
| JsonDiff.LargeIndexFails | iotchain/include/json.hpp:10023-10048 | the difference of two unequal elements behind index 2^31 - 1 is always rejected by patch |
| JsonDiff.EmptyDiffMeansEqual | iotchain/include/json.hpp:10213-10343 | only equal values have an empty difference |
| JsonDiff.ArrayDiffApplies | iotchain/include/json.hpp:10240-10282 | for arrays: element differences, removals from the back in reverse order and appending adds turn the source array into the target array at the path |
| JsonDiff.ObjectDiffApplies | iotchain/include/json.hpp:10284-10326 | for objects: member differences, removals and additions in key order do the same |
| JsonOperations.RemoveUndoesAdd | iotchain/include/json.hpp:9959-10048 | removing an element that has just been added, at any position of any array, restores the document |
| JsonOperations.AddUndoesRemove | iotchain/include/json.hpp:9959-10048 | adding back an element that has been removed restores the document |
| JsonOperations.RemoveUndoesAddIff | iotchain/include/json.hpp:9979-10048 | for members, removal undoes an addition exactly when the key was new |
| JsonOperations.MoveIsRemoveThenAdd | iotchain/include/json.hpp:10119-10134 | a move has the effect, and the errors, of the removal followed by the addition of the value |
| JsonOperations.MoveBackRestores | iotchain/include/json.hpp:10119-10134 | moving an element within its array and moving it back restores the document |
| JsonOperations.CopyIsAddIff | iotchain/include/json.hpp:10136-10144 | a copy to a position of an array does what an addition does exactly when the position is the one behind the last element; an existing element is overwritten |
| JsonOperations.CopyToMemberIsAdd | iotchain/include/json.hpp:10136-10144 | a copy to a member is an addition |
| JsonOperations.TestPassesIff | iotchain/include/json.hpp:10146-10167 | a test passes, and changes nothing, exactly when the path exists and holds an equal value |
| JsonOutcomes.AddSucceedsIff | iotchain/include/json.hpp:9959-10020 | an addition below the root succeeds exactly when its parent exists and takes the value, or is itself a new child, at least two tokens deep, of a value that exists |
| JsonOutcomes.AddNeedsTop | iotchain/include/json.hpp:9968-9974 | an addition through two or more tokens fails with the error of resolving the first one when that does not resolve |
| JsonOutcomes.AddKeepsRoot | iotchain/include/json.hpp:9968-9978 | one that succeeds leaves the key set, or the number of elements, of the root as it was |
| JsonOutcomes.AddToParent | iotchain/include/json.hpp:9976-10018 | an addition to a parent that exists changes the parent alone: a member is set, an element inserted at an index up to the size or appended for "-", and anything else is the error named |
| JsonOutcomes.AddPastMissing | iotchain/include/json.hpp:9302-9344 | behind the longest prefix that resolves, one missing object is made for the new member and no more; an array is filled with nulls up to it |
| JsonOutcomes.AddToRoot | iotchain/include/json.hpp:9961-9965 | an addition at the root replaces the document |
| JsonOutcomes.RemoveFromParent | iotchain/include/json.hpp:10023-10048 | a removal fails as its parent fails to resolve, erases the member or element, throws out_of_range for a missing one, and does nothing below any other value |
| JsonOutcomes.ReplaceAt | iotchain/include/json.hpp:10112-10117 | a replacement changes its target alone, or fails as the target fails to resolve |
| JsonOutcomes.CopySucceedsIff | iotchain/include/json.hpp:10136-10144 | a copy succeeds exactly when its source exists and its target exists or is a new child of a value that exists |
| JsonOutcomes.CopyOnto | iotchain/include/json.hpp:10136-10144 | a copy onto a value that exists replaces it |
| JsonOutcomes.CopyPastMissing | iotchain/include/json.hpp:9302-9344 | a copy to a missing target makes its last token, filling an array with nulls, or fails with the error of the first token that does not lead on |
| JsonOutcomes.SourceMissing | iotchain/include/json.hpp:10119-10144 | a move and a copy fail as their source fails to resolve |
| JsonOutcomes.TestFailure | iotchain/include/json.hpp:10146-10167 | a test that does not pass throws domain_error, unless its pointer is malformed at an array |
| JsonOutcomes.MoveKeepsRoot | iotchain/include/json.hpp:10119-10134 | the second half of a move needs its first token in what the removal has left, and keeps the root of it |
| JsonOutcomes.MoveIntoItself | iotchain/include/json.hpp:10119-10134 | a move of a member into itself fails at the root alone; deeper down the value comes to lie in a new object in its own place |
| JsonOutcomes.NormalApplies | iotchain/include/json.hpp:10061-10175 | an operation depends on the members it has to have, and on no others |
| JsonOutcomes.MalformedFails | iotchain/include/json.hpp:10061-10175 | what lacks one of these members, or names no operation, fails, with invalid_argument where the check comes first |
| JsonOutcomes.PatchComposes | iotchain/include/json.hpp:10049-10179 | a patch has to be an array, applies its operations in order and stops at the first error |
| JsonOutcomes.ResolveNext | iotchain/include/json.hpp:9346-9388 | resolution one token further: a member, an element below the size, or the error named |
| JsonPaths.GetAt | iotchain/include/json.hpp:9346-9388 | a pointer `p + q` resolves to what `q` resolves to below `p` |
| JsonPaths.EditAt | iotchain/include/json.hpp:9346-9388 | an edit below `p` is the edit of the value at `p`, put back at `p`; errors included |
| JsonPaths.PutAt | iotchain/include/json.hpp:9346-9388 | replacing at `p + q` replaces at `p` the value in which `q` has been replaced (path framing) |
| JsonPaths.IndexPathText | iotchain/include/json.hpp:10246-10248 | the path text that diff builds for an array element is the reference string of the path with the index as a further token |
| JsonPaths.KeyPathText | iotchain/include/json.hpp:10289-10295 | the path text that diff builds for a member is the reference string of the path with the (escaped) key as a further token |
| JsonPatch.PatchLoop | iotchain/include/json.hpp:9920-10179 | the loop over the operations, with its working copy, computes the composition of the operations and stops at the first error |
| JsonPatch.At | iotchain/include/json.hpp:9346-9388 | the pointer walk of get_checked, one token at a time |
| JsonPatch.Diff | iotchain/include/json.hpp:10213-10343 | the recursion that appends to `result` yields the operation list that DiffApplies is about |
| JsonPatch.DiffArrays | iotchain/include/json.hpp:10240-10282 | the three passes over arrays |
| JsonPatch.DiffCommon | iotchain/include/json.hpp:10242-10250 | the first pass, over the common prefix, and where it stops |
| JsonPatch.RemoveRest | iotchain/include/json.hpp:10255-10267 | the removals, each inserted in front of the ones for smaller indices, come out in descending order behind what was there before |
| JsonPatch.AddRest | iotchain/include/json.hpp:10269-10279 | the appending adds, in ascending order |
| JsonPatch.DiffObjects | iotchain/include/json.hpp:10284-10326 | the passes over the source's and then the target's members, in sorted key order |
| JsonPointer.SplitOfToString | iotchain/include/json.hpp:9168-9171 | split(to_string(ts)) is `ts`, for every token list |
| JsonPointer.ToStringOfSplit | iotchain/include/json.hpp:9487-9545 | to_string(split(s)) is `s`, for every string that split accepts |
| JsonPointer.ToStringInjective | iotchain/include/json.hpp:9180-9188 | different token lists have different texts |
| JsonPointer.EscapeMeaning | iotchain/include/json.hpp:9579-9583 | two passes of substring replacement amount to escaping character by character |
| JsonPointer.UnescapeMeaning | iotchain/include/json.hpp:9586-9592 | on properly escaped text the two passes amount to reading the pairs from left to right |
| JsonPointer.EscapeRoundTrip | iotchain/include/json.hpp:9576-9592 | an escaped token is well escaped, contains no slash, and unescapes to the token |
| JsonPointer.UnescapeRoundTrip | iotchain/include/json.hpp:9576-9592 | a properly escaped piece without slash is what its unescaped form escapes to |
| JsonPointer.EscapeInPlace | iotchain/include/json.hpp:9579-9583 | the two replacement passes over a key, as diff and flatten use them on every member |
| JsonPointer.UnescapeInPlace | iotchain/include/json.hpp:9586-9592 | the two passes over a token, as split uses them |
| JsonPointer.ReplaceSubstring | iotchain/include/json.hpp:9562-9574 | the find-and-replace loop in place replaces every occurrence once, from the left, without rescanning what it has inserted |
| JsonPointer.SplitInPlace | iotchain/include/json.hpp:9487-9545 | the loop of split yields the tokens, or the first error |
| JsonPointer.CheckEscapes | iotchain/include/json.hpp:9524-9538 | the scan finds out whether every tilde is followed by 0 or 1 |
| JsonUnflatten.UnflattenOfFlatten | iotchain/include/json.hpp:9856-9859 | unflatten(flatten(j)) is `j` exactly when `j` has no empty container, no array beyond index 2^31 - 1, and no object in which the member "0" comes first, a condition on its keys |
| JsonUnflatten.UnflattenEqualIff | iotchain/include/json.hpp:9856-9859 | the promise with operator==: unflatten(flatten(j)) succeeds and is equal to `j` under exactly the same condition |
| JsonUnflatten.EqualIsSame | iotchain/include/json.hpp:9659-9685 | if replaying the leaves of a value gives one that operator== finds equal, it is that value |
| JsonUnflatten.FirstTokenIsZeroIff | iotchain/include/json.hpp:9657-9685 | the first flattened entry of an object lies under "0" exactly when it has that key and none that is empty, or begins with a smaller character other than a slash, or, if the member is a non-empty container, begins with "0" and such a character |
| JsonUnflatten.ZeroBecomesArray | iotchain/include/json.hpp:9233-9287 | an object with the one key "0" comes back as an array |
| JsonUnflatten.PlainIsRecoverable | iotchain/include/json.hpp:9856-9859 | in particular when there is no empty container and no key "0" and the arrays are not too long |
| JsonUnflatten.BuildOfLeaves | iotchain/include/json.hpp:9659-9685 | replaying the leaves in lexicographic path order (10 before 2, nulls in between) rebuilds exactly the recoverable values |
| JsonUnflatten.ObjectBuild | iotchain/include/json.hpp:9233-9287 | replaying entries into an object is replaying each key's entries below that key, for entries of any interleaving |
| JsonUnflatten.ArrayBuild | iotchain/include/json.hpp:9233-9287 | the same for arrays, which grow by nulls up to the largest index seen |
| JsonUnflatten.ReplayIsBuild | iotchain/include/json.hpp:9659-9685 | unflatten parses every path and assigns through get_and_create |
| JsonRebuild.CreateSucceedsIff | iotchain/include/json.hpp:9233-9287 | an assignment through get_and_create succeeds exactly when no value other than null or a container, and no token that is not an index of an array, stands on its path |
| JsonRebuild.CreateReaches | iotchain/include/json.hpp:9233-9287 | afterwards the path leads to the value |
| JsonRebuild.CreateLeavesOthers | iotchain/include/json.hpp:9233-9287 | what lies on a path that parts from it stays as it was |
| JsonRebuild.CreateGrows | iotchain/include/json.hpp:9233-9287 | it adds its own member or element, and nulls in front of that |
| JsonRebuild.CreateError | iotchain/include/json.hpp:9233-9287 | a failing assignment has the error of the first token that does not lead on |
| JsonRebuild.UnflattenOne | iotchain/include/json.hpp:9659-9685 | an object with one entry gives the nested containers of its path, an array for every "0" |
| JsonRebuild.UnflattenNeeds | iotchain/include/json.hpp:9661-9672 | only objects of primitive values under well-formed pointers can be unflattened |
| JsonFlatten.LeavesAreSound | iotchain/include/json.hpp:9601-9652 | every flattened entry is the path text and value of a leaf |
| JsonFlatten.LeavesAreComplete | iotchain/include/json.hpp:9601-9652 | every leaf has its flattened entry |
| JsonFlatten.FlattenInto | iotchain/include/json.hpp:9601-9652 | the recursive helper adds exactly the leaves of its argument to the object it is given |
| JsonFlatten.Flatten | iotchain/include/json.hpp:9836-9841 | flatten collects them in an empty object |
| JsonFlatten.Unflatten | iotchain/include/json.hpp:9659-9685 | the loop over the members, in key order, with its error cases |
| Ordering.SortedUnique | iotchain/include/json.hpp:10213-10343 | there is one sorted enumeration of a set of keys, so that the order in which std::map is walked is determined |
| JsonParser.ParseOfDump | iotchain/include/json.hpp:6263-6401 | parsing `dump(j, indent)` gives `j` back, in compact form and at every indent, a non-negative signed integer coming back as unsigned; operator== sees no difference |
| JsonParser.ParseLexemes | iotchain/include/json.hpp:8887-9076 | the parser undoes the token sequence of a value, whatever follows |
| JsonParser.UnsignedEqual | iotchain/include/json.hpp:5523-5596 | operator== does not tell a value from what parsing returns for it |
| JsonParser.IntegerRoundTrip | iotchain/include/json.hpp:8744-8827 | the text of every 64-bit integer is read as that integer |
| JsonGrammar.ParseIsGrammar | iotchain/include/json.hpp:8853-9119 | the parser accepts exactly the texts of syntax trees of RFC 8259 all of whose tokens have a value, and gives the value of the tree |
| JsonGrammar.TreeText | iotchain/include/json.hpp:8853-9119 | every text of a tree is parsed to the value of the tree, or to the error of its first token without one |
| JsonGrammar.TreeIsParsed | iotchain/include/json.hpp:8881-9060 | the tokens of a tree, whatever follows them, are parsed to its value; of members with the same name the last one counts |
| JsonGrammar.ParsedIsTree | iotchain/include/json.hpp:8881-9060 | the tokens that a successful parse has taken are those of a tree with the value it gives |
| JsonGrammar.ParseErrorIs | iotchain/include/json.hpp:8853-9119 | a text that is not accepted is an invalid argument, or has a number that would be stored as a float |
| JsonTokens.TokenIsScanned | iotchain/include/json.hpp:7664-8465 | a token of the grammar behind a gap of blanks and byte order marks is found, and nothing more is taken |
| JsonTokens.ScannedIsToken | iotchain/include/json.hpp:7664-8465 | whatever the scanner finds without an error is such a gap and such a token |
| JsonTokens.NumberIsRead | iotchain/include/json.hpp:7664-8465 | a number of the grammar is read to its end, if what follows does not make it longer |
| JsonTokens.NumberFound | iotchain/include/json.hpp:7664-8465 | what is read as a number is one, and could not be longer |
| JsonTokens.NoNumber | iotchain/include/json.hpp:7664-8465 | no number is found exactly where no digit follows an optional minus sign |
| JsonTokens.FractionIsFloat | iotchain/include/json.hpp:8744-8827 | a number with a fraction or an exponent counts as a float |
| JsonTokens.UnitsAreRead | iotchain/include/json.hpp:7664-8465 | a string ends at the first quote that is not part of a character or escape of the grammar |
| JsonTokens.UnitsFound | iotchain/include/json.hpp:7664-8465 | what stands before that quote are characters and escapes of the grammar |
| JsonScanner.LexDump | iotchain/include/json.hpp:7685-8465 | the lexer finds in dumped text exactly the tokens of the value: the layout leaves no trace |
| JsonScanner.LexDumped | iotchain/include/json.hpp:7685-8465 | the same inside any surrounding text that does not extend the last token |
| JsonScanner.UnescapedEscaped | iotchain/include/json.hpp:8558-8661 | get_string undoes escape_string, for every byte string |
| JsonScanner.StringEndOfEscaped | iotchain/include/json.hpp:6139-6244 | escaped text contains no bare quote, so that the closing quote is found where it was written |
| JsonScanner.LexString | iotchain/include/json.hpp:7685-8465 | a quoted string is one token |
| JsonScanner.LexNumber | iotchain/include/json.hpp:7685-8465 | the text of an integer is one token, as long as no digit, dot or exponent follows |
| JsonDump.EscapeString | iotchain/include/json.hpp:6139-6244 | the buffer that is allocated once, full of backslashes, is filled exactly |
| JsonDump.ExtraSpace | iotchain/include/json.hpp:6091-6125 | the bytes that escaping adds |
| JsonDump.EscapedLength | iotchain/include/json.hpp:6139-6147 | the size computed in advance is the size of the result |
| JsonDump.Write | iotchain/include/json.hpp:6263-6401 | the recursive writer appends the text of the value to its stream |
| JsonDump.WriteArray | iotchain/include/json.hpp:6313-6349 | the array branch, with its layout and separators |
| JsonDump.WriteObject | iotchain/include/json.hpp:6273-6311 | the object branch, in key order |
| JsonLayout.DumpIsPrinted | iotchain/include/json.hpp:6263-6401 | the layout told from the tokens alone: each element and member on a line of its own, indented by its depth times the step in 32 bits, and empty containers on one line |
| JsonLayout.CompactIsTexts | iotchain/include/json.hpp:6263-6401 | with a negative indent, the texts of the tokens in a row |
| JsonLexer.GetString | iotchain/include/json.hpp:8558-8661 | the loop over a string token, with its escapes and surrogate pairs |
| JsonLexer.SurrogatePair | iotchain/include/json.hpp:7559-7606 | a surrogate pair gives the code point that UTF-16 assigns to it, and is never out of range |
| JsonUnicode.Utf8IsRead | iotchain/include/json.hpp:7559-7622 | what to_unicode writes for a code point is read back as it by a strict UTF-8 reader, for every one up to 0x10ffff but the surrogates |
| JsonUnicode.Utf8IsUnique | iotchain/include/json.hpp:7559-7622 | and nothing else is the encoding of that code point |
| JsonUnicode.TokenIsRead | iotchain/include/json.hpp:8558-8661 | the value of a string token is the UTF-8 text of the code points that its characters, two-character escapes, hexadecimal escapes and surrogate pairs stand for |
| JsonUnicode.UnitTokenIs | iotchain/include/json.hpp:8602-8649 | one hexadecimal escape alone: a high surrogate is an error, a low one gives bytes that are not UTF-8, and anything else its code point |
| JsonUnicode.HighNeedsLow | iotchain/include/json.hpp:8607-8632 | a high surrogate is an error unless a low one is escaped right behind it |
| JsonLexer.GetNumber | iotchain/include/json.hpp:8744-8827 | the loop over a number token, with its wrap-around test |
| JsonLexer.AccumulatedExactly | iotchain/include/json.hpp:8790-8807 | as long as the value fits, the accumulator is exact |
| JsonLexer.UnsignedLiteral | iotchain/include/json.hpp:8744-8827 | a literal without sign is read as its value exactly when that value is below 2^64 |
| JsonLexer.NegativeLiteral | iotchain/include/json.hpp:8744-8827 | a literal with a minus sign is read as its value exactly when that is at least -2^63 |
| JsonLexer.UnsignedLiteralIs | iotchain/include/json.hpp:8744-8827 | what get_number makes of any run of digits: the residue modulo 2^64 of its value, if the residue never falls from one digit to the next, and a float otherwise |
| JsonLexer.NegativeLiteralIs | iotchain/include/json.hpp:8744-8827 | the same behind a minus sign, where the residues must not exceed 2^63 either |
| JsonLexer.MisreadIff | iotchain/include/json.hpp:8790-8807 | a literal is read as a number other than its own exactly when its value is at least 2^64 and the residues of its prefixes never fall |
| JsonLexer.NegativeMisreadIff | iotchain/include/json.hpp:8790-8807 | the same behind a minus sign: exactly when the magnitude exceeds 2^63 and the residues never fall or exceed 2^63 |
| JsonLexer.AccumulatedIff | iotchain/include/json.hpp:8773-8808 | the loop from any digit on: the accumulator holds the residue of the digits read |
| JsonLexer.OverflowIsMissed | iotchain/include/json.hpp:8790-8807 | the wrap-around test misses 30000000000000000000, which is read as a different number |
| JsonLexer.NegativeOverflowIsMissed | iotchain/include/json.hpp:8790-8807 | and it misses -25000000000000000000 |
| JsonReader.Parser.constructor | iotchain/include/json.hpp:8856-8862 | the constructor reads the first token |
| JsonReader.Parser.GetToken | iotchain/include/json.hpp:9079-9083 | the parser moves on by one token |
| JsonReader.Parser.ParseInternal | iotchain/include/json.hpp:8887-9076 | the recursive descent with its one token of look-ahead follows the grammar, and leaves the rest of the input |
| JsonReader.Parser.ParseElementLoop | iotchain/include/json.hpp:8999-9021 | the do-while loop over the elements |
| JsonReader.Parser.ParseMemberLoop | iotchain/include/json.hpp:8921-8966 | the do-while loop over the members; of equal keys the last one wins |
| JsonReader.Parser.Parse | iotchain/include/json.hpp:8873-8883 | the whole input has to be one value |
| JsonReader.ParseText | iotchain/include/json.hpp:5958-5963 | parsing a string |
| Decimal.StoiOfDecimal | iotchain/include/json.hpp:9362-9387 | an array index survives the way through to_string and stoi exactly when it is below 2^31 |
| Decimal.StoiReads | iotchain/include/json.hpp:9362-9387 | `stoi` reads the digits behind white space and a sign, ignores what follows, and rejects what does not fit an int |
| Decimal.StoiRejects | iotchain/include/json.hpp:9362-9387 | and rejects everything else |
| JsonValue.EqualIffSameBits | iotchain/include/json.hpp:5523-5596 | operator== holds exactly between values that are the same but for the signedness of numbers with the same 64 bits |
| ClockRuns.RunKeeps | external/rocksdb/cache/clock_cache.cc:402-674 | every interleaving of the shard's atomic steps keeps the invariant |
| ClockRuns.StepKeeps | external/rocksdb/cache/clock_cache.cc:402-674 | one atomic step of any thread keeps it |
| ClockRuns.HandleLifeCycle | external/rocksdb/cache/clock_cache.cc:402-496 | in every reachable state each handle is in exactly one state (free, in cache, detached with references, dying), no handle is in the recycle bin twice, and a dying one has one thread that will recycle it |
| ClockRuns.CountIsReferences | external/rocksdb/cache/clock_cache.cc:426-466 | the packed count is the number of references held by clients and threads; a free or dying handle has none |
| ClockRuns.QueuedExactlyOnce | external/rocksdb/cache/clock_cache.cc:402-424 | a stored value is in its handle or queued for its deleter, never both and never twice |
| ClockClients.ReferencePins | external/rocksdb/cache/clock_cache.cc:426-466 | while a reference is held, in every interleaving, it stays with its handle, whose key, value and charge do not change, and the value is not passed to its deleter |
| ClockClients.LookupHandsOut | external/rocksdb/cache/clock_cache.cc:609-632 | Lookup gives its reference back, or hands out one to an entry with the key that was asked for, and the client finds that key and the same value for as long as it holds the reference |
| ClockClients.StepEntry | external/rocksdb/cache/clock_cache.cc:402-674 | no action of any thread changes an entry that is referenced |
| ClockClients.GoneForGood | external/rocksdb/cache/clock_cache.cc:446-466 | a reference that has been given back is never held again |
| ClockRuns.AgreementWhenUnlocked | external/rocksdb/cache/clock_cache.cc:402-413 | whenever the mutex is free, `usage_` is the charge of all handles outside the recycle bin (in size_t), and the table and the in-cache bits describe the same set |
| ClockOverflow.StrictLimitIff | external/rocksdb/cache/clock_cache.cc:498-522 | with the strict limit on and the capacity fixed, every interleaving with charges of at most x keeps to the capacity, exactly when capacity + x does not overflow size_t |
| ClockRuns.StrictLimit | external/rocksdb/cache/clock_cache.cc:498-522 | the sufficient half of that condition, for every interleaving of any number of threads |
| ClockOverflow.StrictLimitOverflows | external/rocksdb/cache/clock_cache.cc:498-583 | the necessary half: for every capacity c and charge x with c + x >= 2^64 there is a run with charges of at most x that ends with c + x charged and a reported usage of c + x - 2^64 |
| ClockOverflow.FillsUpTo | external/rocksdb/cache/clock_cache.cc:539-583 | any usage up to the capacity is reached by a run with charges of at most x |
| ClockAlone.LookupAlone | external/rocksdb/cache/clock_cache.cc:609-632 | a Lookup whose thread runs undisturbed through its atomic actions leaves the shard as the sequential object does |
| ClockAlone.ReleaseAlone | external/rocksdb/cache/clock_cache.cc:634-643 | the same for Release without force |
| ClockAlone.RefAlone | external/rocksdb/cache/clock_cache.cc:426-444 | the same for Ref |
| ClockAlone.EraseAlone | external/rocksdb/cache/clock_cache.cc:651-662 | the same for Erase |
| ClockAlone.ClearAlone | external/rocksdb/cache/clock_cache.cc:664-674 | the same for EraseUnRefEntries |
| ClockAlone.SweepComes | external/rocksdb/cache/clock_cache.cc:498-522 | the loop of EvictFromCache, action by action, comes to the state and the answer of the sequential sweep |
| ClockAlone.InsertAlone | external/rocksdb/cache/clock_cache.cc:539-583 | the same for Insert, evictions and replaced entry included |
| ClockAlone.ResizeAlone | external/rocksdb/cache/clock_cache.cc:524-532 | the same for SetCapacity |
| ClockSafety.RefFoundKeeps | external/rocksdb/cache/clock_cache.cc:426-444 | the compare-and-swap loop of Ref |
| ClockSafety.CheckKeyKeeps | external/rocksdb/cache/clock_cache.cc:609-632 | the key comparison of Lookup after the reference has been taken |
| ClockSafety.DropKeeps | external/rocksdb/cache/clock_cache.cc:446-466 | the decrement of Unref, which may make the thread responsible for the handle |
| ClockSafety.RecycleDyingKeeps | external/rocksdb/cache/clock_cache.cc:634-643 | recycling under the mutex by that thread |
| ClockSafety.RecycleKeeps | external/rocksdb/cache/clock_cache.cc:402-413 | RecycleHandle inside any critical section |
| ClockCritical.UnsetKeeps | external/rocksdb/cache/clock_cache.cc:468-481 | clearing the in-cache bit; the thread takes the handle over if there are no references |
| ClockCritical.ClearStepKeeps | external/rocksdb/cache/clock_cache.cc:664-674 | one round of EraseUnRefEntries |
| ClockCritical.SweepStepKeeps | external/rocksdb/cache/clock_cache.cc:483-522 | one round of the sweep, with its compare-and-swap |
| ClockCritical.FillsFree | external/rocksdb/cache/clock_cache.cc:539-570 | Insert into a handle from the recycle bin |
| ClockCritical.FillsNew | external/rocksdb/cache/clock_cache.cc:539-570 | Insert into a new handle |
| ClockCritical.InsertFails | external/rocksdb/cache/clock_cache.cc:544-552 | Insert that finds no room |
| ClockCritical.ReplaceUnsetKeeps | external/rocksdb/cache/clock_cache.cc:571-576 | the entry that Insert replaces |
| ClockCritical.TableInsertKeeps | external/rocksdb/cache/clock_cache.cc:577-577 | the new entry becomes visible |
| PackedFlags.AddReference | external/rocksdb/cache/clock_cache.cc:426-444 | adding one reference changes only the count, unless the count is 2^30 - 1 |
| PackedFlags.SubtractReference | external/rocksdb/cache/clock_cache.cc:454-455 | subtracting one changes only the count |
| PackedFlags.SetUsageBit | external/rocksdb/cache/clock_cache.cc:448-450 | setting the usage bit changes nothing else |
| PackedFlags.ClearUsageBit | external/rocksdb/cache/clock_cache.cc:494-494 | clearing it changes nothing else |
| PackedFlags.UnsetInCacheBit | external/rocksdb/cache/clock_cache.cc:474-475 | clearing the in-cache bit changes nothing else |
| PackedFlags.SpecialWords | external/rocksdb/cache/clock_cache.cc:483-489 | the compare-and-swap of TryEvict succeeds exactly on an entry in cache that is unused and unreferenced; the words that Insert stores are those of a new entry |
| PackedFlags.PartsAreWord | external/rocksdb/cache/clock_cache.cc:271-279 | the three parts determine the word |
| PackedFlags.CountOverflows | external/rocksdb/cache/clock_cache.cc:271-279 | at the largest count one more reference forgets all of them |
| ClockHistory.LookupAgreesWithMap | external/rocksdb/cache/clock_cache.cc:609-662 | after every sequential history Lookup returns nothing, or the value of the last Insert of that key that stored an entry, if there was no Erase since |
| ClockHistory.ExactWhenAllFit | external/rocksdb/cache/clock_cache.cc:539-583 | if every Insert finds room, the capacity is not changed and no Release is forced on an entry that others hold while its key is cached, Lookup finds a key exactly when the documented map binds it |
| ClockHistory.DoneIsExact | external/rocksdb/cache/clock_cache.cc:539-662 | with everything fitting, a call keeps the cache equal to the documented map exactly if it is not such a Release |
| ClockSweep.TwoSweepsAlways | external/rocksdb/cache/clock_cache.cc:506-519 | in every interleaving a thread in EvictFromCache moves its hand at most twice around the list, with at most three actions for each position, before it leaves the loop |
| ClockSweep.LoopIsBounded | external/rocksdb/cache/clock_cache.cc:506-519 | from any point of the loop on, at most as many moves as there are positions left |
| ClockSweep.OthersWait | external/rocksdb/cache/clock_cache.cc:498-522 | no action of another thread moves the hand or the head, or appends to the list, meanwhile |
| ClockSweep.ListStays | external/rocksdb/cache/clock_cache.cc:498-522 | the list is as long when the thread leaves the loop |
| ClockSweep.EvictionFits | external/rocksdb/cache/clock_cache.cc:498-522 | in every reachable state in which EvictFromCache has returned true, usage plus charge fits the capacity, in size_t |
| ClockSweep.RecycledIsUnused | external/rocksdb/cache/clock_cache.cc:405-405 | the assertion of RecycleHandle holds in every reachable state |
| ClockSweep.DroppedIsReferenced | external/rocksdb/cache/clock_cache.cc:455-455 | so does that of Unref |
| ClockSweep.SweepAsserts | external/rocksdb/cache/clock_cache.cc:488-507 | so do those of TryEvict and of the sweep |
| ClockSweep.NeverStuck | external/rocksdb/cache/clock_cache.cc:402-674 | no thread is ever stuck inside an operation: its next action takes it on, unless it waits for the mutex |
| ClockHistory.EvictedOk | external/rocksdb/cache/clock_cache.cc:498-522 | in sequential histories a false result with non-zero starting usage means every entry still in cache is referenced; referenced entries survive |
| ClockHistory.TwoSweeps | external/rocksdb/cache/clock_cache.cc:507-520 | the sequential method calls TryEvict at most twice for each position |
| ClockHistory.SweptOk | external/rocksdb/cache/clock_cache.cc:507-520 | the loop invariant of the sweep: what lies behind the hand has lost its usage bit, or is referenced |
| ClockHistory.InsertedOk | external/rocksdb/cache/clock_cache.cc:539-583 | Insert stores the entry under its key, or only evicts; it stores whenever the charge fits |
| ClockHistory.LookedUpOk | external/rocksdb/cache/clock_cache.cc:609-632 | Lookup finds exactly the keys in the table, and pins what it finds |
| ClockHistory.ForcedReleaseIff | external/rocksdb/include/rocksdb/cache.h:140-149 | a forced Release erases what is documented, its own entry and only without other references, exactly when there is no other reference or nothing is cached under the key; otherwise it takes out an entry that is still referenced, or a newer one |
| ClockHistory.ForcedReleaseRemovesNewer | external/rocksdb/cache/clock_cache.cc:634-643 | a history in which it takes out a newer entry: Insert and Lookup of one, Insert of another under the same key, forced Release of the first |
| ClockHistory.ReleasedOk | external/rocksdb/cache/clock_cache.cc:634-643 | a forced Release takes out the key, unless its reference was the last one to an entry that had left the cache; any other leaves the table alone |
| ClockHistory.ErasedOk | external/rocksdb/cache/clock_cache.cc:651-662 | Erase takes out exactly its key |
| ClockHistory.ClearOk | external/rocksdb/cache/clock_cache.cc:664-674 | EraseUnRefEntries empties the table |
| ClockHistory.DoneOk | external/rocksdb/cache/clock_cache.cc:498-674 | every public call keeps the invariant, pinned usage included |
| ClockHistory.DoneAgrees | external/rocksdb/cache/clock_cache.cc:498-674 | after every public call each cached key is bound to its value in the documented map |
| ClockLimits.StrictHistory | external/rocksdb/cache/clock_cache.cc:498-583 | after any history of a strict cache with a fixed capacity and charges that cannot overflow, the usage is the sum of the charges in use and at most the capacity |
| ClockLimits.InsertRefusedIff | external/rocksdb/cache/clock_cache.cc:544-551 | Insert refuses an entry exactly when the limit is strict or nobody is to hold it, and the charge does not fit beside what is referenced and what is freed too late |
| ClockLimits.InsertStaysWithin | external/rocksdb/cache/clock_cache.cc:539-583 | an entry that is stored unheld, or under a strict limit, lies within the capacity; a refused one adds nothing |
| ClockLimits.EvictionSucceedsIff | external/rocksdb/cache/clock_cache.cc:498-522 | EvictFromCache makes room exactly when the charge fits beside what is referenced and the entry that the sweep comes to last, if that is idle and used |
| ClockLimits.RefusedWithRoom | external/rocksdb/cache/clock_cache.cc:506-521 | a history after which a cache with room for an entry refuses one and is empty |
| ClockLimits.ResizedWithinIff | external/rocksdb/cache/clock_cache.cc:524-532 | after SetCapacity the usage lies within the new capacity exactly when what is referenced does, and otherwise is exactly that |
| ClockHand.EvictionOrder | external/rocksdb/cache/clock_cache.cc:498-522 | the hand takes the entries in circular order and stops behind the last one tried, or where it was after two turns; an entry goes at its first visit when it is idle and unused, at its second when it is idle and used |
| ClockHand.ReleasedIsSpared | external/rocksdb/cache/clock_cache.cc:446-466 | the last Release of a cached entry sets its usage bit, so that the hand has to come past it twice |
| ClockHand.UnusedGoesFirst | external/rocksdb/cache/clock_cache.cc:539-583 | a new entry nobody has looked up goes at the first visit |
| ClockValues.EachDeletedOnce | external/rocksdb/cache/clock_cache.cc:402-424 | after any history each value handed over has been deleted once or is in a handle that is cached or referenced, and in no other case |
| ClockValues.InsertedOwned | external/rocksdb/cache/clock_cache.cc:539-607 | Insert takes over the value of an entry it stores or that nobody is to hold; the value of a refused entry that was to be held stays with the caller |
| ClockValues.ErasedReports | external/rocksdb/cache/clock_cache.cc:651-662 | the result of EraseAndConfirm says whether a value has been deleted |
| ClockValues.TriedReports | external/rocksdb/cache/clock_cache.cc:483-496 | and so does that of TryEvict, which evicts exactly an entry in cache without usage bit and references |
| ClockValues.ReleasedReports | external/rocksdb/cache/clock_cache.cc:634-643 | and so does that of Release |
| ClockShard.ClockCacheShard.constructor | external/rocksdb/cache/clock_cache.cc:363-364 | an empty shard |
| ClockShard.ClockCacheShard.RecycleHandle | external/rocksdb/cache/clock_cache.cc:402-413 | the handle goes to the recycle bin, its value to the deleters, its charge off the usage |
| ClockShard.ClockCacheShard.Ref | external/rocksdb/cache/clock_cache.cc:426-444 | takes a reference exactly on a handle in cache; the first one pins its charge |
| ClockShard.ClockCacheShard.Unref | external/rocksdb/cache/clock_cache.cc:446-466 | gives a reference back; the last one unpins the charge, and recycles a handle that has left the cache |
| ClockShard.ClockCacheShard.UnsetInCache | external/rocksdb/cache/clock_cache.cc:468-481 | clears the bit, and recycles a handle without references |
| ClockShard.ClockCacheShard.TryEvict | external/rocksdb/cache/clock_cache.cc:483-496 | evicts an unused, unreferenced entry; otherwise takes its usage bit |
| ClockShard.ClockCacheShard.EvictFromCache | external/rocksdb/cache/clock_cache.cc:498-522 | the sweep with its moving hand |
| ClockShard.ClockCacheShard.SetCapacity | external/rocksdb/cache/clock_cache.cc:524-532 | evicts down to the new capacity |
| ClockShard.ClockCacheShard.SetStrictCapacityLimit | external/rocksdb/cache/clock_cache.cc:534-537 | changes only the strictness |
| ClockShard.ClockCacheShard.Insert | external/rocksdb/cache/clock_cache.cc:539-583 | the whole new state of Insert, evictions and replaced entry included |
| ClockShard.ClockCacheShard.Lookup | external/rocksdb/cache/clock_cache.cc:609-632 | the whole new state of Lookup |
| ClockShard.ClockCacheShard.Release | external/rocksdb/cache/clock_cache.cc:634-643 | the whole new state of Release |
| ClockShard.ClockCacheShard.Erase | external/rocksdb/cache/clock_cache.cc:645-649 | the whole new state of Erase |
| ClockShard.ClockCacheShard.EraseAndConfirm | external/rocksdb/cache/clock_cache.cc:651-662 | the same, with the report whether the handle was recycled |
| ClockShard.ClockCacheShard.EraseUnRefEntries | external/rocksdb/cache/clock_cache.cc:664-674 | the loop over the list |
| ShardedCache.SharesCoverIff | external/rocksdb/cache/sharded_cache.cc:29-37 | the shares cover the total capacity exactly when the rounding up does not overflow size_t |
| ShardedCache.StrictTotalIff | external/rocksdb/cache/sharded_cache.cc:29-37 | what all shards are charged stays below the capacity plus the number of shards in every run with charges of at most x, exactly when the share of a shard plus x does not overflow size_t |
| ShardedCache.StrictTotal | external/rocksdb/cache/sharded_cache.cc:90-98 | with the strict limit on and no such overflow, the usage that all shards report, each running on its own interleaving, stays below the capacity plus the number of shards |
| ShardedCache.ShardedClockCache.SetCapacity | external/rocksdb/cache/sharded_cache.cc:29-37 | every shard gets the rounded share |
| ShardedCache.ShardedClockCache.GetUsage | external/rocksdb/cache/sharded_cache.cc:90-98 | the sum over the shards, in size_t |
| Base58.DecodeOfEncode | iotchain/src/base58.cpp:58-96 | decoding an encoding gives the bytes back, for every byte sequence, leading zeros included |
| Base58.EncodeOfDecode | iotchain/src/base58.cpp:8-56 | encoding what an accepted string decodes to gives the string back, less the white space around it (and less what follows a NUL) |
| Base58.DecodeIsInjective | iotchain/src/base58.cpp:8-56 | two accepted strings that decode alike differ only in that white space |
| Base58.EncodeBufferSuffices | iotchain/src/base58.cpp:67-69 | n * 138 / 100 + 1 base-58 digits hold every n-byte number |
| Base58.DecodeBufferSuffices | iotchain/src/base58.cpp:20-22 | n * 733 / 1000 + 1 bytes hold every n-letter number |
| Base58.Encode | iotchain/src/base58.cpp:58-96 | the encoder with its loops |
| Base58.EncodeDigits | iotchain/src/base58.cpp:71-84 | the digit buffer has the value of the bytes read, and the digits beyond `length` are zero |
| Base58.Decode | iotchain/src/base58.cpp:8-56 | the decoder with its loops and both rejections |
| Base58.Accumulate | iotchain/src/base58.cpp:24-40 | the byte buffer has the value of the letters read, up to the first white space or foreign character |
| Base58.SkipZeros | iotchain/src/base58.cpp:46-49 | what remains behind the leading zero digits is the canonical numeral |
| Base58.PositionInvertsLetter | iotchain/src/base58.cpp:6-6 | the alphabet lists 58 different characters |
| Base58.AlphabetIs | iotchain/src/base58.cpp:6-6 | they are the digits and letters without 0, O, I and l, in the order of their codes |
| Base58.AcceptedIff | iotchain/src/base58.cpp:8-56 | a string is accepted exactly when it is white space, letters and white space, up to a NUL or its end |
| Base58.BlanksAreIgnored | iotchain/src/base58.cpp:8-56 | white space around the letters does not matter |
| Base58.NulEndsText | iotchain/src/base58.cpp:103-106 | nor does what follows a NUL |
| Radix.MultiplyAdd | iotchain/src/base58.cpp:29-38 | one inner loop computes digits * factor + addend in place, in a buffer that is large enough |
| Radix.CarryingStep | iotchain/src/base58.cpp:32-36 | its loop invariant: the carry and the digits done hold the new value of these digits |
| Radix.CarriedOut | iotchain/src/base58.cpp:37-37 | the carry is zero when the loop stops, as the source asserts |
| Radix.ToFromRadix | iotchain/src/base58.cpp:46-49 | a canonical numeral is determined by its value |
| Framing.ChunkingIsIrrelevant | p2p-network/src/protocol.cpp:18-74 | receive(a) then receive(b) has the same events and ends in the same state as receive(a + b), for all inputs, reader states and handlers |
| Framing.StreamIsRead | p2p-network/src/protocol.cpp:18-74 | a stream of well formed frames gives, one by one, their headers, one hop older, and their bodies as buffered bytes, with nothing left over |
| Framing.FrameIsRead | p2p-network/src/protocol.cpp:18-74 | one such frame gives one event with its header and its body |
| Framing.CopyStaysInsideIff | p2p-network/src/message.cpp:12-17 | whatever a fresh reader is fed with: the message that the handler gets is copied from inside the buffer exactly when its header declares no size; otherwise the copy goes on for the six bytes behind the buffer |
| Framing.DeliveryIsDeterminedIff | p2p-network/src/message.cpp:12-17 | so the message that the handler gets is determined by what was received exactly when there is no size |
| Framing.PacketIsReadIff | p2p-network/src/protocol.cpp:88-100 | what get_packet writes is read back by receive, and handed over as the same message one hop older, exactly when the message has no body |
| Framing.BodyIsCut | p2p-network/src/protocol.cpp:52-72 | with a body of 1 to 5 bytes nothing is reported, with 6 the loop hangs, with n > 6 the first event has the first n - 6 bytes of the body, and the copy reads six more from behind the buffer |
| Framing.HeaderDecides | p2p-network/src/protocol.cpp:31-69 | what a header does to a fresh reader: a message one hop older without a size, an error above MAX_PKT_SIZE, and otherwise a wait for as many bytes as it declares |
| Framing.OversizedFails | p2p-network/src/protocol.cpp:49-53 | behind any number of frames a size above the maximum ends the connection, and whatever is read after that fails in the same way |
| Framing.HeaderRoundTrip | p2p-network/src/protocol.cpp:88-100 | the header is read as it was written |
| Framing.HeaderBytesOf | p2p-network/src/protocol.cpp:33-33 | and every six bytes are a header that is written as it was read |
| Framing.Protocol.Receive | p2p-network/src/protocol.cpp:18-74 | the loop over the input, with its size_t subtraction, agrees with the byte-by-byte reader |
| Framing.Protocol.Send | p2p-network/src/protocol.cpp:76-81 | a message is queued exactly when it is not too big |
| Framing.Protocol.GetPacket | p2p-network/src/protocol.cpp:88-100 | the first queued message leaves the queue as header and body |
| Framing.Protocol.HasPacket | p2p-network/src/protocol.cpp:83-86 | whether the queue is not empty |
| SendPump.RunConserves | p2p-network/src/peer.cpp:29-38 | in every run at most one write is outstanding, a non-empty queue implies `sending_`, and completed packets, the one in flight and the queued ones are those of all accepted sends, in order |
| SendPump.RunDrains | p2p-network/src/peer.cpp:123-154 | without errors as many completions as there are packets under way deliver everything |
| SendPump.FailureIsFinal | p2p-network/src/peer.cpp:141-150 | after a failed write nothing is sent any more |
| SendPump.FailureStops | p2p-network/src/peer.cpp:141-150 | a failed write is not counted as delivered, and neither is anything behind it |
| SendPump.AcceptedIff | p2p-network/src/protocol.cpp:76-81 | a message is accepted exactly when its body has at most 10240 bytes, and then comes last |
| SendPump.PumpReachesReader | p2p-network/src/protocol.cpp:18-100 | after any run of a fresh pump whose messages have no bodies, a fresh reader fed with all completed writes has read exactly the first accepted messages, as many as there were completions, in order, one hop older, and waits for the next |
| SendPump.CompletedArePrefix | p2p-network/src/peer.cpp:123-154 | the completed writes are the packets of the first accepted messages |
| SendPump.Peer.Send | p2p-network/src/peer.cpp:29-38 | queue, then try to write |
| SendPump.Peer.DoWrite | p2p-network/src/peer.cpp:123-138 | starts a write unless one is under way |
| SendPump.Peer.OnWriteCompleted | p2p-network/src/peer.cpp:139-151 | the completion handler |
| Flooding.FloodingReachesExactly | p2p-network/src/peer.cpp:55-98 | once no copy is under way, exactly the nodes within `ttl` hops of the origin have received the message, of whatever type, on any topology and in any order of deliveries |
| Flooding.FloodingTerminates | p2p-network/src/peer.cpp:55-98 | there are at most as many deliveries as the packets under way weigh |
| Flooding.DeliveryFalls | p2p-network/src/peer.cpp:60-86 | every delivery lowers the weight, the pong to a ping included |
| Flooding.RunKeepsLiving | p2p-network/src/message.cpp:26-29 | if every message starts with a time to live of at least 1, every packet under way has one, so that `hop` never wraps around |
| Flooding.ZeroWraps | p2p-network/src/message.cpp:26-29 | a packet that arrives with 0 is relayed with 255 |
| Flooding.OnlyNearby | p2p-network/src/peer.cpp:85-86 | no copy is farther from the origin than the hops it has used |
| Flooding.OnMessage | p2p-network/src/peer.cpp:56-98 | the handler of do_read: what it sends for each type of message, and when the peer stops reading |
| Pongs.OnePongForEachPing | p2p-network/src/peer.cpp:60-69 | in every run the pongs of a node to a ping of a neighbour, under way and delivered, are as many as the times that ping was delivered |
| Pongs.PongsArrive | p2p-network/src/peer.cpp:60-69 | once nothing is under way, a node has the pong exactly if its ping has arrived |
| Pongs.NoPongWithoutPing | p2p-network/src/peer.cpp:60-69 | every answer has time to live 1 and goes back to a peer whose ping was delivered |
| Relays.CopiesAreCounted | p2p-network/src/peer.cpp:55-98 | in every run, the copies a node sends to a peer are one for each broadcast of its own and one for each copy from somebody else with one hop more |
| PeerList.PeerList.Broadcast | ___sunum/p2p-network/src/peer_list.cpp:27-39 | sends to every live peer but the one given; to all of them at the origin |
| PeerList.PeerList.AddPeer | ___sunum/p2p-network/src/peer_list.cpp:9-13 | adds at the end |
| PeerList.PeerList.RemovePeer | ___sunum/p2p-network/src/peer_list.cpp:15-25 | std::remove_if without erase: kept entries move to the front, and the length stays |
| PeerList.OthersStay | ___sunum/p2p-network/src/peer_list.cpp:15-25 | all others are still where broadcast finds them, in the same order |
| PeerList.RemovedStays | ___sunum/p2p-network/src/peer_list.cpp:15-25 | the removed peer is still in the list exactly when it stood behind as many entries as are kept |
| Wire.BlockBack | iotchain/src/serialization.cpp:216-229 | decoding an encoded block followed by anything consumes exactly the encoding and gives back every field, each list behind as many default entries as it had |
| Wire.TxBack | iotchain/src/serialization.cpp:179-214 | the same for transactions |
| Wire.BlockUnchangedIff | iotchain/src/serialization.cpp:216-229 | decoding an encoded block gives that block exactly when it lists no transactions and its coinbase has neither inputs nor outputs |
| Wire.TxUnchangedIff | iotchain/src/serialization.cpp:179-214 | decoding an encoded transaction gives that transaction exactly when it has neither inputs nor outputs |
| Wire.TruncatedBlock | iotchain/src/serialization.cpp:216-229 | every proper prefix of an encoded block runs into the end of the stream |
| Wire.TruncatedTx | iotchain/src/serialization.cpp:179-214 | so does every proper prefix of an encoded transaction |
| Wire.DefaultsAreZero | iotchain/src/serialization.cpp:184-185 | the default entries in front of a decoded list are zero in every byte |
| Wire.SerializeTx | iotchain/src/serialization.cpp:142-166 | writes the encoding at the cursor |
| Wire.SerializeBlock | iotchain/src/serialization.cpp:168-177 | writes the encoding at the cursor |
| Wire.DeserializeTx | iotchain/src/serialization.cpp:179-214 | reads what TxBack is about from the cursor, and leaves the cursor behind it |
| Wire.DeserializeInputs | iotchain/src/serialization.cpp:184-194 | resize, then push_back: the decoded entries come behind the default ones |
| Wire.DeserializeBlock | iotchain/src/serialization.cpp:216-229 | reads what BlockBack is about |
| BufferStream.BufferStream.Write | p2p-network/include/buffer_stream.hpp:93-97 | inserts at the cursor and moves it behind the insertion |
| BufferStream.BufferStream.Read | p2p-network/include/buffer_stream.hpp:99-105 | reads from the cursor, or throws and leaves the stream alone |
| BufferStream.BufferStream.MoveTo | p2p-network/include/buffer_stream.hpp:73-78 | moves the cursor within the buffer |
| BufferStream.ReadBack | p2p-network/include/buffer_stream.hpp:93-105 | what has been written is read once the cursor is back |
| HexText.HexRoundTrip | iotchain/src/serialization.cpp:9-32 | integer_buffer undoes hex_buffer, for every byte sequence |
| HexText.WriteHex | iotchain/src/serialization.cpp:9-19 | the loop of hex_buffer |
| HexText.ReadHex | iotchain/src/serialization.cpp:21-32 | the loop of integer_buffer fills the front of its buffer and leaves the rest |
| LittleEndian.ValueOfEncoded | p2p-network/include/buffer_stream.hpp:80-91 | an integer that fits its width is read as it was written |
| VmBalance.BalancedCallReturns | ___sunum/vm.cpp:376-418 | for any depth of nested calls in which every function pops what it has pushed before it returns, and stores nothing from its entry on, CALL to its matching RET resumes behind the CALL, with SP raised by exactly the clean-up size and everything the caller has on the stack untouched |
| VmBalance.BalancedIsDisciplined | ___sunum/vm.cpp:376-418 | such functions return with the stack pointer back at their frame, and keep the frames above intact |
| VmBalance.NextCounts | ___sunum/vm.cpp:376-418 | the count of pushed bytes gives the stack pointer, now and after every return to come |
| VmBalance.CleanUpIsExactIff | ___sunum/vm.cpp:376-403 | a CALL and the RET that finds what it pushed raise SP by the clean-up size exactly when that is below 2^32 |
| VmCalls.RetResumesIff | ___sunum/vm.cpp:395-403 | any RET resumes at the address it finds and raises SP by the size it finds exactly when both are below 2^32 |
| VmCalls.CallReturns | ___sunum/vm.cpp:376-403 | the same for all code that respects its frames, whatever moves its stack pointer in between |
| VmCalls.BodyReturns | ___sunum/vm.cpp:376-403 | the same seen from inside any frame on the stack |
| VmCalls.NextKeeps | ___sunum/vm.cpp:376-403 | every instruction that respects the frames keeps them intact in memory, and RET goes where a separate return stack would go |
| VmCalls.RunIsExecution | ___sunum/vm.cpp:67-472 | these runs are executions of the machine |
| VmCalls.CallPushes | ___sunum/vm.cpp:376-394 | what CALL leaves on the stack, and that nothing above changes |
| VmExp.ExpIsExactIff | ___sunum/vm.cpp:543-554 | the result is the power exactly when the power fits: below 2^31 for a positive even exponent, below 2^64 otherwise |
| Vm.PopOfPush | ___sunum/vm.cpp:590-600 | Pop takes back what Push put there; only the eight bytes below the stack pointer change |
| Vm.SignedDivision | ___sunum/vm.cpp:528-541 | SDIV rounds towards zero, and SMOD is the remainder that goes with it |
| Vm.MoreRounds | ___sunum/vm.cpp:67-472 | a program that has stopped stays stopped |
| VmInstructions.InstructionMeans | ___sunum/vm.cpp:67-510 | every instruction, read from its bytes, does to registers and memory what it is for: numbers of vm.h, operand flags and layout, signed and unsigned arithmetic, comparisons, memory, stack and jumps |
| VmInstructions.ArithGives | ___sunum/vm.cpp:503-554 | the binary operations: congruences modulo 2^64, quotients and remainders, and where they are undefined |
| VmInstructions.JumpsIff | ___sunum/vm.cpp:237-325 | a comparison jumps exactly when its relation holds between the unsigned values, and falls through otherwise |
| VmInstructions.ComparisonLaws | ___sunum/vm.cpp:237-325 | exactly one of LT, EQ and GT jumps; LE is the opposite of GT, GE of LT; GT is LT with its operands exchanged |
| VmInstructions.LowerIsTransitive | ___sunum/vm.cpp:237-254 | LT is transitive |
| VmInstructions.SuccessorIsGreaterIff | ___sunum/vm.cpp:237-254 | LT of a value and its successor by ADD jumps exactly when ADD has not wrapped to zero, which it does for the largest word alone |
| VmInstructions.SubUndoesAdd | ___sunum/vm.cpp:83-118 | SUB undoes ADD, in all registers and all of the memory |
| VmInstructions.NegatedSum | ___sunum/vm.cpp:226-235 | NEG gives what adds up to zero, NOT what adds up to 2^64 - 1 |
| VmInstructions.UnaryTwice | ___sunum/vm.cpp:226-235 | NEG and NOT undo themselves |
| VmInstructions.SignedMultiplyIsMultiply | ___sunum/vm.cpp:513-521 | MUL and SMUL do the same |
| VmInstructions.DivisionLaw | ___sunum/vm.cpp:523-541 | quotient and remainder make up the dividend |
| VmInstructions.LoadOfStore | ___sunum/vm.cpp:338-361 | LOAD returns what STORE has put there, and the rest of the memory is as it was |
| VmInstructions.PopMovesPushed | ___sunum/vm.cpp:404-423 | POP behind PUSH moves a value and leaves the stack pointer where it was |
| VmInstructions.RelativeJump | ___sunum/vm.cpp:362-375 | a relative jump goes where an absolute one does that counts from the last byte of the instruction |
| VmMachine.VirtualMachine.constructor | ___sunum/vm.cpp:12-26 | the registers are zero but for the stack pointer, which stands behind the memory; what the memory holds is not determined |
| VmMachine.VirtualMachine.Execute | ___sunum/vm.cpp:67-472 | the loop, in place on registers and stack, computes the state that the lemmas of VmCalls and VmBalance are about |

## Left out

- Floats in JSON: a literal with a fraction or an exponent gives `FloatingPoint`, even when a later syntax error would throw something else.
- JSON parser callbacks, stream refill (`yyfill`), iterators, conversions, allocators and locale handling: plumbing around the round trips.
- The scanner's goto automaton: `JsonScanner.Scan` has its token language, one function per kind of token.
- JsonPatch.PatchLoop: the `copy` operation reads before it writes, an order that C++ leaves open there; a failed `assert` and an unchecked index outside an array are errors of their own (`Aborted`, `LengthError`).
- Negation of the smallest 64-bit integer: taken as wrapping around, in JSON numbers and in the machine's signed multiplication and NEG.
- Base58.Decode: `int` and `size_t` are unbounded here, so inputs of 2^31 bytes and more are treated as short ones are; what follows a NUL is ignored, as `c_str` does.
- Base58 address checksums and key derivation: hash functions without visible bodies.
- Weak memory orders in the cache: steps are interleaved under sequential consistency.
- Reference counts of 2^30 in the interleaved model: counts are unbounded there; `PackedFlags.CountOverflows` shows what the word does.
- Filling a handle in Insert (pop from the bin, key, value, charge and flags): one step, as the handle is in no table until the step after.
- `pinned_usage_` and forced Release in interleaved runs: handle fields are read after the reference is gone (clock_cache.cc:456-458, 637-639); both are in the sequential model.
- Choice of the shard by hash, HashSlice, ApplyToAllCacheEntries and the destructor of the cache: no state of their own.
- The values of the six bytes that a message is copied from behind the buffer: nothing determines them; the handler's answer depends on the header and the buffered bytes only.
- Framing.Protocol.Receive: a handler that throws, and a handler that looks at the reader's state.
- Sockets, strands, logging and uuids: every strand callback is one step, uuids are distinct numbers, and a weak pointer is live or expired.
- Flooding.FloodingReachesExactly: whole messages over reliable links with fixed peer lists and handlers that return true; `Flooding.OnMessage` has the other answer as well.
- `buffer_stream::remove_first`, `remove` and `move`: nothing in the modelled code calls them.
- Wire.BlockBack: lists of fewer than 2^31 entries and byte fields of fewer than 2^32 bytes, the ranges of the loop counter and the length fields; memory for a declared count is always there.
- JSON forms of blocks and transactions: only their hexadecimal texts are modelled; public keys and hashes have no visible bodies.
- VmMachine.VirtualMachine.Execute: runs for a given number of rounds; SYSCALL ends the model's run, and accesses outside code, registers or memory are faults.
- `hex_dump`, PrintRegisters, PrintStack and GPIO: output only.
