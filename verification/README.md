# Samurai, modelled in Dafny

Samurai is a C++ platform library. This project models the parts of it that decide
things by themselves - digests, parsers, codecs, timers, and the protocol between the
threads of the resolver pool - and proves what they are for. Nothing here executes the
library; every statement is a contract or a lemma that Dafny checks for all inputs, all
runs or all interleavings.

Where the source changes state in place, the model is a class or a method with loops,
proved against a function on values; the theorems are about that function. Where the
source only computes, the model is a function.

- **Tree hashing** (`Prelude`, `Octets`, `BlockStream`, `TreeHash`, `MerkleForest`, `MerkleDigest`,
  `BitziTree`, `TigerDigest`). `TreeHash.Root` is the recursive tree hash of section 2 of
  the THEX specification over an uninterpreted hash function. The streaming `MerkleTree`,
  which pairs its leaves down whenever they are all in use, and the Bitzi binary counter
  are both proved to compute it, whatever the pieces in which the stream arrives.
- **HTTP responses** (`ByteBuffer`, `Text`, `HttpNumbers`, `HttpResponse`, `HttpChunked`,
  `HttpFraming`, `HttpHead`, `HttpLimits`, `HttpParser`). The buffer refines a byte sequence.
  The nine-state parser gives the same answer however the input is fragmented, reads back any
  head, frames the body by the header list, decodes exactly the chunked bodies, delivers counted
  and open bodies as they are, and keeps its limits on every input.
- **XML and SOAP** (`XmlEvents`, `XmlSyntax`, `XmlNesting`, `XmlReferences`,
  `XmlLimits`, `XmlTextLimit`, `XmlAttributeLimit`, `XmlTree`, `XmlParser`, `XmlPrint`, `XmlRoundTrip`, `Soap`, `SoapRoundTrip`,
  `SoapReader`). Whatever the input, the events nest; a document that is accepted is the
  word of one tree; the heap of elements is that tree; and printing a tree and parsing the
  text gives the tree back. Reading back a SOAP request is an instance.
- **Timers** (`Timers`). A heap with lazy deletion, stale entries and reused addresses
  agrees with the plain set of live timers, under callbacks that construct, destroy and
  reset timers.
- **SOCKS5** (`Socks5`, `Socks5Protocol`, `Socks5Client`). Over every reply stream,
  fragmentation and pattern of partial writes, exactly the bytes of the grammar are
  consumed, the messages are sent in order and only when they were asked for, and the outcome
  is the verdict of what was received.
- **Resolver pool** (`ResolverPool`). Every interleaving of loop, scheduler and workers
  keeps each request in exactly one place and never loses a wakeup.
- **Two codecs** (`Base32`, `DotSegments`, `RelativePaths`). Base32 round trips, and the removal of dot
  segments from URL paths against section 5.2.4 of RFC 3986.

## Where the code and what it promises part

Each of these is proved with the exact condition, and with a concrete input where that
adds something.

- A tree digest of at most one level fails its pairing assertion as soon as it is given a
  second block, and only then: `MerkleForest.BuildAborts`.
- Its leaf capacity is a `size_t` that is doubled for every level. It is right exactly up to
  64 levels and 0 beyond, where there is no slot for the first leaf:
  `MerkleForest.CapacityExact`.
- The 56 slots of the Bitzi context are enough exactly for fewer than 2^55 blocks:
  `BitziTree.SlotsSuffice`.
- A decimal content length is refused although it fits a `size_t` for exactly the last six
  values: `HttpNumbers.LengthsRefused`, `HttpNumbers.LargestRefused`.
- The size of a chunk is added to the body's in a `size_t` and the sum is compared with the
  limit of the body. That keeps every body within it exactly when the limits for a chunk and
  for a body add up to a `size_t`: `HttpChunked.RoomExact`, `HttpLimits.EveryInputWithin`.
- `timeToNext` returns the wait exactly when there is no timer or one due within `INT_MAX`
  milliseconds; a timer 2^32 - 1 milliseconds ahead is returned as "no timer":
  `Timers.WaitExact`, `Timers.FarTimerReadsAsNone`.
- A lookup can be left waiting with no worker on its way to it. Only a pass of the scheduler
  leaves it so, in exactly one constellation, and then only another call ends the waiting:
  `ResolverPool.LeftUnattended`, `ResolverPool.OnlySchedulingLeaves`,
  `ResolverPool.UnattendedForever`; `ResolverPool.LookupLeftWaiting` reaches it.
- On absolute paths, the removal of dot segments is that of the RFC exactly when no empty
  segment stays in effect: `DotSegments.AgreesWithRfc`, `DotSegments.EmptySegmentDropped`.
  Without a leading slash the condition is another, since a slash stays in front once the first
  segment has been taken away; the RFC makes "/b" of "a/../b", the code "b": `RelativePaths.RelativeAgreesWithRfc`,
  `RelativePaths.FirstSegmentTaken`.
- The limit on the character data of an element is kept exactly when every reference would
  also pass with the data before it counted, which the numeric branch does not check:
  `XmlTextLimit.TextLimitExact`, `XmlTextLimit.BeyondIsAccepted`. The limit on one piece of
  data is always kept: `XmlLimits.EveryInputBounded`.
- An attribute value is held against the limit together with the character data of the
  element around it, although a comment says that the value alone counts - except for its
  numeric references, which are held against it without that data, but as four bytes each.
  `XmlAttributeLimit.ValueLimit` gives the outcome for every text,
  `XmlAttributeLimit.ReportedMatters` when the data around makes a difference. The inputs are
  `XmlAttributeLimit.OuterRefused`, `NumericTaken` and `NumericRefused`.
- The bit length in the padding of a digest is right exactly below 2^61 bytes:
  `TigerDigest.LengthWraps`. The padding stays injective beyond: `TigerDigest.PaddingInjective`.

## Main results

| about | for all | theorem |
|---|---|---|
| streaming tree digest | streams, pieces, block sizes, capacities | `MerkleDigest.MerkleTree.Digest`, `MerkleForest.RootOfBuild`, `MerkleForest.RetainedLeaves` |
| Bitzi counter | streams, pieces | `BitziTree.Context.Digest`, `BitziTree.AgreesWithMerkleForest` |
| Tiger padding | messages, pieces | `TigerDigest.Tiger.Finalize`, `TigerDigest.PaddingIsLeast`, `TigerDigest.PaddingInjective` |
| buffer | runs of calls | `ByteBuffer.Buffer.Append`, `ByteBuffer.Buffer.Remove` |
| HTTP responses | inputs, fragments | `HttpResponse.FragmentationIndependent`, `HttpLimits.EveryInputWithin`, `HttpParser.ResponseParser.Parse` |
| HTTP messages | codes, headers, bodies, fragments | `HttpHead.ChunkedResponse`, `HttpHead.CountedResponse`, `HttpHead.OpenResponse`, `HttpHead.RefusedExactly` |
| chunked bodies | inputs | `HttpChunked.ChunkedExact` |
| XML events | inputs | `XmlNesting.EveryInput`, `XmlLimits.EveryInputBounded`, `XmlTextLimit.TextLimitExact`, `XmlAttributeLimit.ValueLimit` |
| XML tree | event words | `XmlTree.Assemble`, `XmlParser.ParseDocument` |
| XML round trip | trees within the limits | `XmlRoundTrip.PrintParses` |
| SOAP round trip | actions, arguments | `SoapRoundTrip.RoundTrip`, `SoapReader.ReadResponse` |
| timers | states, callbacks | `Timers.TimerManager.Process`, `Timers.ReusedAddressIsSafe`, `Timers.WaitExact` |
| SOCKS5 | runs | `Socks5Protocol.ConsumesExactly`, `Socks5Protocol.SendsInOrder`, `Socks5Protocol.StatusIsVerdict`, `Socks5Protocol.StreamDecides`, `Socks5Client.Pump` |
| resolver pool | interleavings | `ResolverPool.EveryInterleaving`, `ResolverPool.SilentAfterCancel`, `ResolverPool.UnattendedForever` |
| URL paths | paths | `DotSegments.AgreesWithRfc`, `RelativePaths.RelativeAgreesWithRfc`, `DotSegments.Idempotent` |
| Base32 | byte strings, noise | `Base32.RoundTrip` |

## Model

A method that only carries out one branch or one loop of a function on values, and is called
by a method listed here, has no row of its own: `HttpParser.ResponseParser.Parse`,
`XmlParser.Parser.Run`, `SoapReader.InterpretTree`, `DotSegments.RemoveDotSegments` and
`Socks5Client.Socks5Handshake.Feed` stand for theirs.

| member | source | states |
|---|---|---|
| `BlockStream.Extend` | src/crypto/digest/hash.cpp:45-60 | appending up to what completes the pending block either leaves the complete blocks alone or adds exactly that one |
| `BlockStream.WholePrefix` | src/crypto/digest/hash.cpp:45-60 | the complete blocks of a stream stay when it goes on |
| `BlockStream.Accumulator.constructor` | src/crypto/digest/hash.cpp:11-25 | an empty block buffer of the given size |
| `BlockStream.Accumulator.Fill` | src/crypto/digest/hash.cpp:47-59 | one turn gathers as much as fits and reports a full block with exactly the gathered bytes |
| `TreeHash.BlocksSplit` | src/crypto/digest/merkletree.cpp:282-290 | the blocks of a stream are its complete blocks and a last one that is short, or empty for the empty stream |
| `TreeHash.SplitPoint` | src/crypto/digest/merkletree.cpp:341-374 | the largest power of two below a number, where the recursive hash splits |
| `TreeHash.PairUpRoot` | src/crypto/digest/merkletree.cpp:362-374 | hashing one level bottom up, with an unpaired last digest promoted, does not change the recursive root |
| `TreeHash.GroupDouble` | src/crypto/digest/merkletree.cpp:341-359 | pairing the roots of runs of b digests gives the roots of runs of 2b |
| `TreeHash.GroupRoot` | src/crypto/digest/merkletree.cpp:282-321 | the root over the roots of power-of-two runs is the root over all digests |
| `TreeHash.GroupAppend` | src/crypto/digest/merkletree.cpp:385-402 | a further run adds its root behind whole runs |
| `TreeHash.GroupLength` | src/crypto/digest/merkletree.cpp:377-403 | there are ceil(N/b) runs |
| `TreeHash.GroupAt` | src/crypto/digest/merkletree.cpp:377-403 | run i is the root of the digests from i*b up to the next multiple of b |
| `MerkleForest.CalcMaxLeaves` | src/crypto/digest/merkletree.cpp:38-47 | the doubling of a size_t gives the leaf capacity for up to 64 levels, and 0 beyond |
| `MerkleForest.CapacityExact` | src/crypto/digest/merkletree.cpp:38-47 | the doubled size_t is two to the power of the levels less one if and only if there are at most 64 levels; beyond it is 0 |
| `MerkleForest.CompactKeepsCover` | src/crypto/digest/merkletree.cpp:341-359 | pairing the leaves and doubling the blocks per leaf keeps the leaves the roots of consecutive runs |
| `MerkleForest.PromoteKeepsCover` | src/crypto/digest/merkletree.cpp:392-402 | promoting a full set of waiting digests adds the next run |
| `MerkleForest.AddLeafKeeps` | src/crypto/digest/merkletree.cpp:377-403 | one more block keeps the leaves covering, within capacity, and never coarser than needed |
| `MerkleForest.BuildAborts` | src/crypto/digest/merkletree.cpp:341-346 | for up to 64 levels, the pairing assertion fails if and only if there is at most one level and a second block |
| `MerkleForest.FlushIsGroup` | src/crypto/digest/merkletree.cpp:291-300 | the retained leaves after closing are the roots of runs of b blocks |
| `MerkleForest.RootOfBuild` | src/crypto/digest/merkletree.cpp:282-321 | whatever compactions happened, the root over the retained leaves is the root over all block digests |
| `MerkleForest.RetainedLeaves` | src/crypto/digest/merkletree.cpp:377-403 | there are ceil(N/b) leaves, b is the least power of two for which they fit the capacity, and leaf i is the tree hash of its run of blocks |
| `MerkleDigest.WorkStack.constructor` | src/crypto/digest/merkletree.cpp:62-66 | an empty stack with its slots |
| `MerkleDigest.WorkStack.Clear` | src/crypto/digest/merkletree.cpp:128-134 | empty, with the same number of slots |
| `MerkleDigest.WorkStack.Add` | src/crypto/digest/merkletree.cpp:70-81 | pushes, doubling the slots only when all are in use |
| `MerkleDigest.WorkStack.ReleaseFirst` | src/crypto/digest/merkletree.cpp:90-95 | pops the digest pushed last |
| `MerkleDigest.WorkStack.AddAll` | src/crypto/digest/merkletree.cpp:303-305 | pushes all of another stack in order |
| `MerkleDigest.WorkStack.Compact` | src/crypto/digest/merkletree.cpp:341-359 | the in-place repacking with two indices is one level of pairing |
| `MerkleDigest.WorkStack.CompactLevel` | src/crypto/digest/merkletree.cpp:364-372 | one level with an odd digest set aside and put back |
| `MerkleDigest.WorkStack.CompactAll` | src/crypto/digest/merkletree.cpp:362-374 | level by level down to the recursive root |
| `MerkleDigest.ClosingIsBuild` | src/crypto/digest/merkletree.cpp:282-300 | closing a stream adds its last, possibly empty, block, and the root of the retained leaves is the tree hash |
| `MerkleDigest.MerkleTree.constructor` | src/crypto/digest/merkletree.cpp:152-163 | for up to 64 levels, an empty stream, the capacity for them, and the default block size for zero |
| `MerkleDigest.MerkleTree.Promote` | src/crypto/digest/merkletree.cpp:392-402 | the waiting digests become one leaf, their root |
| `MerkleDigest.MerkleTree.HashBlock` | src/crypto/digest/merkletree.cpp:377-403 | hashing a block is taking in one leaf digest |
| `MerkleDigest.MerkleTree.Update` | src/crypto/digest/hash.cpp:29-62 | as long as the pairing assertion holds, the state depends on the concatenation of the pieces only; a finished digest ignores more |
| `MerkleDigest.MerkleTree.Finalize` | src/crypto/digest/merkletree.cpp:282-321 | promotes what waits, keeps the leaves, and takes their root; once only |
| `MerkleDigest.MerkleTree.TakeRoot` | src/crypto/digest/merkletree.cpp:303-320 | a copy of the leaves is reduced to the root and the leaves stay |
| `MerkleDigest.MerkleTree.Digest` | src/crypto/digest/merkletree.cpp:324-328 | the digest is the recursive tree hash of everything taken in, now and when asked again |
| `MerkleDigest.MerkleTree.SetLeavesLTR` | src/crypto/digest/merkletree.cpp:173-190 | starts over with the leaves cut from a buffer |
| `MerkleDigest.MerkleTree.CopyLeavesLTR` | src/crypto/digest/merkletree.cpp:219-228 | the leaves one after the other |
| `MerkleDigest.JoinedCut` | src/crypto/digest/merkletree.cpp:173-190 | digests of one width are told apart again after joining them |
| `MerkleDigest.TransferLeaves` | src/crypto/digest/merkletree.cpp:173-228 | leaves copied out and set in another digest, with a nonzero size, give the same root |
| `BitziTree.StackSize` | test/applications/tiger/tigertree-bitzi.cpp:78-96 | one complete-subtree digest per set bit of the block count |
| `BitziTree.StackSnoc` | test/applications/tiger/tigertree-bitzi.cpp:78-96 | one more block is one push followed by the carries of a binary counter |
| `BitziTree.FoldStack` | test/applications/tiger/tigertree-bitzi.cpp:138-157 | merging the stack from the right gives the recursive root |
| `BitziTree.FoldMerge` | test/applications/tiger/tigertree-bitzi.cpp:148-157 | each merge of the two topmost digests keeps that root |
| `BitziTree.AgreesWithMerkleForest` | test/applications/tiger/tigertree-bitzi.cpp:68-157 | the binary counter and the compacting leaf list compute one root |
| `BitziTree.SlotsSuffice` | test/applications/tiger/tigertree-bitzi.cpp:68-96 | with k+1 slots, exactly the streams of fewer than 2^k blocks stay inside the stack |
| `BitziTree.StreamFits` | test/applications/tiger/tigertree-bitzi.cpp:98-135 | every stream whose length a 64-bit counter holds has fewer than 2^55 blocks and stays inside the 56 slots |
| `BitziTree.Context.constructor` | test/applications/tiger/tigertree-bitzi.cpp:58-66 | an empty stream |
| `BitziTree.Context.TakeBlock` | test/applications/tiger/tigertree-bitzi.cpp:78-96 | keeps the array the counter over all block digests |
| `BitziTree.Context.Update` | test/applications/tiger/tigertree-bitzi.cpp:98-135 | takes in the next piece, whatever was pending |
| `BitziTree.Context.Digest` | test/applications/tiger/tigertree-bitzi.cpp:138-157 | the digest is the recursive tree hash of the stream |
| `TigerDigest.PaddingIsLeast` | src/crypto/digest/hash.cpp:65-83 | the padding completes the last block with the fewest zeros possible |
| `TigerDigest.PaddedBlocks` | src/crypto/digest/hash.cpp:69-81 | the blocks behind the message are one or two, by the room left for marker and length |
| `TigerDigest.PaddingInjective` | src/crypto/digest/hash.cpp:65-96 | different messages are padded differently, also where the length field has wrapped |
| `TigerDigest.LengthWraps` | src/crypto/digest/hash.cpp:85-96 | the length field is right if and only if the message is shorter than 2^61 bytes |
| `TigerDigest.LittleEndianInjective` | src/crypto/digest/hash.cpp:91-95 | the octets of the length determine it |
| `TigerDigest.Tiger.constructor` | src/crypto/digest/tiger.cpp:75-78 | an empty stream in 64-byte blocks |
| `TigerDigest.Tiger.Update` | src/crypto/digest/hash.cpp:29-62 | the state depends on the concatenation of the pieces only, and nothing changes once the digest is taken |
| `TigerDigest.Tiger.FinalizeCount` | src/crypto/digest/hash.cpp:85-96 | the last eight octets become the 64-bit bit length, least significant first |
| `TigerDigest.Tiger.Finalize` | src/crypto/digest/hash.cpp:65-83 | exactly the blocks of the padded message have been compressed |
| `TigerDigest.Tiger.Digest` | src/crypto/digest/tiger.cpp:196-220 | the digest of the padded stream, the same when asked again |
| `ByteBuffer.Grown` | src/io/buffer.cpp:205-222 | the capacity covers what is required, at less than twice it unless the doubling would wrap |
| `ByteBuffer.IndexOf` | src/io/buffer.cpp:239-246 | the first occurrence at or after a position, or none |
| `ByteBuffer.Buffer.constructor` | src/io/buffer.cpp:27-28 | an empty buffer |
| `ByteBuffer.Buffer.Compact` | src/io/buffer.cpp:184-191 | moves the live bytes to the front and keeps the contents |
| `ByteBuffer.Buffer.Resize` | src/io/buffer.cpp:199-231 | keeps the contents, and succeeds exactly when the capacity for them can be had |
| `ByteBuffer.Buffer.Append` | src/io/buffer.cpp:69-81 | appends everything, or on failure leaves the contents unchanged; exactly when it fails |
| `ByteBuffer.Buffer.Write` | src/io/buffer.cpp:76-80 | copies behind the live bytes where there is room |
| `ByteBuffer.Buffer.Remove` | src/io/buffer.cpp:171-182 | drops a prefix; over any run of calls its compactions move at most twice the bytes removed |
| `ByteBuffer.Buffer.Clear` | src/io/buffer.cpp:233-237 | empty, at the initial capacity |
| `ByteBuffer.Buffer.At` | src/io/buffer.cpp:301-304 | the byte at an offset into the contents, or NUL past the end |
| `ByteBuffer.Buffer.CopyRange` | src/io/buffer.cpp:156-161 | the bytes in a range of the contents, or nothing |
| `ByteBuffer.Buffer.Find` | src/io/buffer.cpp:239-246 | the first occurrence in the contents |
| `Text.TrimSplits` | src/util/string.cpp:34-43 | trimming takes off whitespace at both ends, and all of it |
| `HttpNumbers.ReadExact` | src/io/net/http/response.cpp:18-62 | a number is read if and only if all characters are digits and it is at most the largest, and then it is the number denoted |
| `HttpNumbers.LengthsRefused` | src/io/net/http/response.cpp:18-34 | a decimal length that fits a size_t is read, except that exactly the last six are refused |
| `HttpNumbers.LargestRefused` | src/io/net/http/response.cpp:18-34 | one of the six: the largest size_t |
| `HttpNumbers.ChunkSizesRead` | src/io/net/http/response.cpp:37-62 | a hexadecimal chunk size is read if and only if it fits a size_t |
| `HttpNumbers.ChunkSizeRoundTrip` | src/io/net/http/response.cpp:37-62 | a printed chunk size is read back |
| `HttpResponse.TakeLineSplit` | src/io/net/http/response.cpp:199-226 | a line that was found, or was too long, is so with any further input |
| `HttpResponse.StepRanks` | src/io/net/http/response.cpp:493-527 | every step that goes on uses up input or moves to a later state, so parsing ends |
| `HttpResponse.StepSplits` | src/io/net/http/response.cpp:493-527 | a step on a piece and a step on more agree up to what the piece lacks |
| `HttpResponse.LoopSplit` | src/io/net/http/response.cpp:493-527 | parsing a piece and then what it left with the rest is parsing the whole |
| `HttpResponse.RunSplit` | src/io/net/http/response.cpp:493-527 | the same for a call of parse(), from any state |
| `HttpResponse.FragmentationIndependent` | src/io/net/http/response.cpp:199-226 | any cutting of the input gives the result and status of one call on the whole, and without error the same response and unread bytes |
| `HttpResponse.RunResult` | src/io/net/http/response.cpp:493-527 | complete means the final state, and the status is Ok unless the result is an error |
| `HttpLimits.EveryInputWithin` | src/io/net/http/response.cpp:199-489 | for every input in any fragments, no body, header list or line bytes beyond the limits, nor more unread bytes than a line while waiting, when the sum of the two body limits is a size_t |
| `HttpLimits.StepBounded` | src/io/net/http/response.cpp:199-489 | every step keeps those bounds, and one that fails keeps them for what it leaves behind |
| `HttpHead.HeadRoundTrip` | src/io/net/http/response.cpp:230-304 | any code, reason and list of headers within the limits is read back as printed, in order, and the rest goes to the framing |
| `HttpHead.StatusRoundTrip` | src/io/net/http/response.cpp:236-266 | a printed status line is read back |
| `HttpHead.HeaderRoundTrip` | src/io/net/http/response.cpp:280-302 | a printed header is read back and put behind the others |
| `HttpHead.GetIsFirst` | src/io/net/http/response.cpp:132-142 | a lookup finds the first header of a name, up to case, or there is none |
| `HttpHead.ContentLengthSays` | src/io/net/http/response.cpp:338-348 | the lengths are absent, all one text, or two of them differ, as the header list says |
| `HttpHead.FramingSays` | src/io/net/http/response.cpp:308-372 | the framing by the header list alone: no body, chunks, a length, until the close, or refused |
| `HttpHead.RefusedExactly` | src/io/net/http/response.cpp:308-372 | malformed if and only if a body may follow and the first coding is neither chunked nor identity, or without chunks two lengths differ or the one length is no number |
| `HttpHead.ChunkedResponse` | src/io/net/http/response.cpp:230-470 | a whole response in chunks, in any fragments: code, reason, headers, and the pieces put together |
| `HttpHead.CountedResponse` | src/io/net/http/response.cpp:230-389 | a whole response with a length, in any fragments |
| `HttpHead.OpenResponse` | src/io/net/http/response.cpp:230-546 | a whole response that the close ends, in any fragments |
| `HttpHead.BodylessResponse` | src/io/net/http/response.cpp:230-316 | a response that never has a body ends with its head |
| `HttpChunked.ChunkDecodes` | src/io/net/http/response.cpp:393-449 | a chunk with any admissible size line, ended by LF or CRLF, adds its data to the body |
| `HttpChunked.TrailersDecode` | src/io/net/http/response.cpp:454-470 | trailers are read and dropped up to the empty line |
| `HttpChunked.ChunkedDecodes` | src/io/net/http/response.cpp:393-470 | an encoded body for which each sum of 64 bits finds room decodes to its data in order, leaving the bytes behind it |
| `HttpChunked.WasChunked` | src/io/net/http/response.cpp:393-470 | whatever is decoded was a well-formed chunked body for which each sum found room, followed by the unread bytes |
| `HttpChunked.ChunkedExact` | src/io/net/http/response.cpp:393-470 | a body is complete if and only if such a body stands at the start of what arrived, and then it is its data |
| `HttpChunked.AdmitsIsWithin` | src/io/net/http/response.cpp:402-404 | when the sum of the two limits is a size_t, finding room is being within the limits |
| `HttpChunked.RoomExact` | src/io/net/http/response.cpp:402-404 | the check keeps every body within its limit if and only if the sum of the two limits is a size_t |
| `HttpChunked.CanonicalWellFormed` | src/io/net/http/response.cpp:393-415 | every split into nonempty pieces has an admissible encoding |
| `HttpChunked.ChunkedMessage` | src/io/net/http/response.cpp:393-470 | a message with any body in any pieces, delivered in any fragments, is decoded to the concatenation of the pieces |
| `HttpFraming.CountedMessage` | src/io/net/http/response.cpp:376-389 | a body of the announced length, in any fragments, is delivered as it is and what follows stays unread |
| `HttpFraming.OpenMessage` | src/io/net/http/response.cpp:474-546 | without framing everything within the limit is body, in any fragments, and the close completes it |
| `HttpFraming.CutMessage` | src/io/net/http/response.cpp:376-546 | a counted body that is cut off by the close is an error, not a shorter body |
| `HttpParser.ResponseParser.constructor` | src/io/net/http/response.cpp:172-175 | the fresh parser with its limits |
| `HttpParser.ResponseParser.Parse` | src/io/net/http/response.cpp:493-527 | one call on the buffer is the parsing function on its contents, in every state |
| `HttpParser.ResponseParser.Finish` | src/io/net/http/response.cpp:531-546 | the close completes a body that runs to it and is an error anywhere else |
| `XmlEvents.ZipFlattens` | src/io/xml.cpp:63-105 | the tree under construction spells exactly the events it was made from |
| `XmlEvents.ZipIsPrefix` | src/io/xml.cpp:475-544 | what is accepted event by event is a prefix of the word of a tree, and its whole word once the root is closed |
| `XmlEvents.TreeOfWord` | src/io/xml.cpp:475-544 | a word has one tree, which is found again from it |
| `XmlEvents.TakeMerges` | src/io/xml.cpp:66-97 | each event takes the stack of elements with joined text to that of the extended tree |
| `XmlEvents.Fold` | src/io/xml.cpp:63-105 | folding the events is merging the tree they spell |
| `XmlSyntax.FindIsFirst` | src/io/xml.cpp:390-391 | a search finds the first occurrence, and nothing only where there is none |
| `XmlSyntax.Step` | src/io/xml.cpp:563-606 | every turn of the loop uses up text |
| `XmlNesting.StepKeeps` | src/io/xml.cpp:563-606 | a turn keeps the stack of open elements that of the reported word, within the depth limit |
| `XmlNesting.EmitKeeps` | src/io/xml.cpp:192-198 | a reported run keeps the stack that of the word |
| `XmlNesting.EveryInput` | src/io/xml.cpp:475-612 | for every input the events are a prefix of a nested word, never deeper than the limit, and the word of one root when the document is accepted |
| `XmlNesting.Accepted` | src/io/xml.cpp:608-611 | an accepted document is the word of its one root |
| `XmlNesting.UnsupportedExactly` | src/io/xml.cpp:434-606 | a turn refuses what it finds as unsupported if and only if it stands at a declaration, and then nothing more is reported |
| `XmlReferences.CharNumberExact` | src/io/xml.cpp:243-259 | a number is read if and only if all characters are digits and it is at most the last code point, and then it is the number denoted |
| `XmlReferences.Utf8RoundTrip` | src/util/string.cpp:152-182 | exactly the code points but surrogates are encoded, and each is read back by section 3 of RFC 3629 whatever follows |
| `XmlReferences.EntityExact` | src/io/xml.cpp:270-276 | the five predefined entities and no other |
| `XmlReferences.ReferenceExact` | src/io/xml.cpp:230-283 | a reference is resolved if and only if it has a meaning, is short enough and fits; otherwise which error |
| `XmlLimits.EveryInputBounded` | src/io/xml.cpp:209-313 | on every input no more elements, attributes, name characters or characters in one piece of data than the limits say |
| `XmlLimits.StepLeaves` | src/io/xml.cpp:563-606 | the text left after a turn is the end of what there was |
| `XmlTextLimit.StrictRunExact` | src/io/xml.cpp:230-283 | a run passes the guard that the numeric branch lacks, throughout, exactly when it ends within the limit |
| `XmlTextLimit.TextLimitExact` | src/io/xml.cpp:191-283 | in an accepted document no element has more character data than the limit, if and only if every reference passes with the data before it counted |
| `XmlTextLimit.ElementsWithin` | src/io/xml.cpp:191-219 | in an accepted document without numeric references no element has more character data than the limit |
| `XmlTextLimit.BeyondIsAccepted` | src/io/xml.cpp:261-267 | with a numeric reference a document beyond the limit is accepted |
| `XmlAttributeLimit.ValueLimit` | src/io/xml.cpp:209-377 | for every text and either quote, the outcome is the one without limits if and only if what is assembled up to the last piece that is no numeric reference fits together with what was reported, and each numeric reference has four bytes left; otherwise too large |
| `XmlAttributeLimit.ReportedMatters` | src/io/xml.cpp:206-219 | what was reported for the element around changes the outcome if and only if it does not fit together with that, and the value is not too large anyhow |
| `XmlAttributeLimit.NumericTaken` | src/io/xml.cpp:261-267 | four bytes reported under a limit of four, and a value of one is taken |
| `XmlAttributeLimit.NumericRefused` | src/io/xml.cpp:261-267 | nothing reported under a limit of five, and a value of three is refused |
| `XmlAttributeLimit.ValueExact` | src/io/xml.cpp:206-219 | a value as `xml_escape` writes it, in double quotes, is taken if and only if it is empty or fits together with the data reported for the element around |
| `XmlAttributeLimit.OuterRefused` | src/io/xml.cpp:206-219 | an element within the limits with a value of one character, and a document refused for it under a limit of four |
| `XmlTree.XmlTreeSink.constructor` | src/io/xml.cpp:63-105 | nothing built yet |
| `XmlTree.XmlTreeSink.Open` | src/io/xml.cpp:66-81 | a new element is hung below the innermost open one and becomes the innermost; the builder takes the start event |
| `XmlTree.XmlTreeSink.Close` | src/io/xml.cpp:83-87 | the innermost element is complete; the builder takes the end event |
| `XmlTree.XmlTreeSink.Characters` | src/io/xml.cpp:93-97 | the data is joined to the innermost element through its borrowed pointer, and no other element changes |
| `XmlTree.Assemble` | src/io/xml.cpp:63-105 | the heap of elements built from the events is the fold of the events, and the tree whose word they are |
| `XmlParser.Parser.constructor` | src/io/xml.cpp:141-143 | at the start of the text with nothing open |
| `XmlParser.Parser.Run` | src/io/xml.cpp:547-612 | error and events of a run are those of the parsing function |
| `XmlParser.ParseDocument` | src/io/xml.cpp:727-745 | nothing is handed out from a document that failed; otherwise the tree whose word was reported, with its text joined |
| `XmlPrint.ReferenceOf` | src/io/xml.cpp:270-282 | an escaped special character is read back as itself |
| `XmlPrint.ValueEscaped` | src/io/xml.cpp:357-377 | an escaped attribute value within the limit is read back |
| `XmlPrint.RunEscaped` | src/io/xml.cpp:405-426 | escaped character data within the limit is read back |
| `XmlPrint.SplitExact` | src/io/xml.cpp:296-312 | a name splits exactly when it is a prefix and a local part around one colon, both there, or has no colon |
| `XmlPrint.NameParses` | src/io/xml.cpp:286-313 | a written name is read back with its prefix |
| `XmlPrint.AttributesParse` | src/io/xml.cpp:316-382 | printed attributes are read back in order |
| `XmlRoundTrip.TreeParses` | src/io/xml.cpp:475-544 | a printed element, anywhere it may stand, is read as its word, and parsing goes on behind it |
| `XmlRoundTrip.ItemsParse` | src/io/xml.cpp:405-426 | printed content is read as its word and counted as its text |
| `XmlRoundTrip.PrintParses` | src/io/xml.cpp:556-612 | for every tree within the limits, parsing what is printed gives the word of that tree, hence the tree |
| `Soap.FindIn` | src/io/xml.cpp:646-653 | the first element of a name in a list, or none |
| `Soap.Below` | src/io/xml.cpp:679-688 | the next level is less high, so the search ends |
| `Soap.BuildRequest` | src/io/net/upnp/soap.cpp:25-64 | the request text, argument by argument |
| `SoapRoundTrip.RequestPrints` | src/io/net/upnp/soap.cpp:25-64 | the request is a declaration and the print of one tree |
| `SoapRoundTrip.ArgumentPrints` | src/io/net/upnp/soap.cpp:48-54 | what is written for an argument is the print of its element |
| `SoapRoundTrip.ActionPrints` | src/io/net/upnp/soap.cpp:40-59 | what is written for the action is the print of its element with all arguments inside |
| `SoapRoundTrip.RoundTrip` | src/io/net/upnp/soap.cpp:25-139 | for valid colon-free names and values within the limits, reading a request gives the same arguments in order, values trimmed, and a fault if and only if the action is named Fault |
| `SoapReader.FindDescendant` | src/io/xml.cpp:671-692 | the level loop finds what breadth-first search finds |
| `SoapReader.InterpretTree` | src/io/net/upnp/soap.cpp:78-138 | reading the heap tree is reading its value |
| `SoapReader.ReadResponse` | src/io/net/upnp/soap.cpp:67-139 | the response is that of the document's tree |
| `Timers.ConstructKeeps` | src/timer.cpp:27-48 | construction keeps a matching heap entry for every live timer |
| `Timers.DestroyKeeps` | src/timer.cpp:108-117 | destruction keeps the invariant |
| `Timers.RearmKeeps` | src/timer.cpp:58-64 | a new deadline keeps the invariant |
| `Timers.DropStaleKeeps` | src/timer.cpp:156-161 | an entry that is not current may be dropped |
| `Timers.FireKeeps` | src/timer.cpp:67-86 | firing keeps the invariant |
| `Timers.ReusedAddressIsSafe` | src/timer.cpp:133-146 | once the timer an entry was made for is destroyed the entry is never current again, through any run of constructions, resets, firings and destructions |
| `Timers.WaitUnique` | src/timer.cpp:166-198 | the plain computation over the live timers has one result |
| `Timers.WaitExact` | src/timer.cpp:166-198 | the returned int is the plain wait if and only if there is no timer, or one due within INT_MAX milliseconds |
| `Timers.FarTimerReadsAsNone` | src/timer.cpp:193-197 | a manager with one timer due 2^32 - 1 milliseconds ahead, for which the wait reads as no timer |
| `Timers.PassingEnds` | src/timer.cpp:149-163 | with nothing due on the heap, every timer due at the start has fired or was touched by a callback, and no live timer is due |
| `Timers.TimerManager.constructor` | src/timer.cpp:89-91 | no timers |
| `Timers.TimerManager.PushHeap` | src/timer.cpp:120-131 | the entry joins the heap with an earliest one in front |
| `Timers.TimerManager.PopHeap` | src/timer.cpp:153-157 | the front entry leaves the heap |
| `Timers.TimerManager.ConstructTimer` | src/timer.cpp:39-48 | a timer with a fresh serial, registered and scheduled |
| `Timers.TimerManager.DestroyTimer` | src/timer.cpp:108-117 | unregistered, its entries left to go stale |
| `Timers.TimerManager.ResetTimer` | src/timer.cpp:58-64 | a new deadline and a new entry |
| `Timers.TimerManager.InternalFire` | src/timer.cpp:67-86 | a single shot is unregistered and a repeating timer re-armed before its callback |
| `Timers.TimerManager.RunCallback` | src/timer.cpp:67-86 | a callback that constructs, destroys and resets timers keeps what the pass has established |
| `Timers.TimerManager.FireEntry` | src/timer.cpp:149-163 | firing the earliest current entry keeps what the pass has established |
| `Timers.TimerManager.Turn` | src/timer.cpp:149-163 | one turn drops the front entry, and fires it exactly if it is current |
| `Timers.TimerManager.Process` | src/timer.cpp:149-163 | fires in order of deadline, each timer at most once, only timers due at the start that no earlier callback destroyed or reset, and all of those; and ends |
| `Timers.TimerManager.TimeToNext` | src/timer.cpp:166-198 | the plain computation over the live timers, as an int |
| `Socks5.WantedInRange` | src/io/net/socks5.cpp:341-346 | between 1 and 255 bytes are wanted exactly while reading, so the guard of the pump never fires |
| `Socks5.RequestRoundTrip` | src/io/net/socks5.cpp:228-303 | a proxy reading section 4 of RFC 1928 gets back command, address or name, and port |
| `Socks5.AuthRoundTrip` | src/io/net/socks5.cpp:213-225 | a proxy reading section 2 of RFC 1929 gets back the credentials |
| `Socks5.ConsumeStepSane` | src/io/net/socks5.cpp:371-540 | every complete reply leads to a state with something to send, something to read, or the end |
| `Socks5.Feed` | src/io/net/socks5.cpp:350-368 | consumes no more than was given and keeps the machine sane |
| `Socks5Protocol.EndIsStable` | src/io/net/socks5.cpp:371-540 | where the handshake ends does not depend on the bytes behind it |
| `Socks5Protocol.VerdictEnds` | src/io/net/socks5.cpp:371-540 | there is a verdict on what the proxy said exactly when the handshake has ended by its grammar |
| `Socks5Protocol.VerdictIsStable` | src/io/net/socks5.cpp:371-540 | the verdict does not depend on the bytes behind it |
| `Socks5Protocol.SentKeeps` | src/io/net/socks5.cpp:313-338 | a partial write keeps the invariant |
| `Socks5Protocol.ReceivedKeeps` | src/io/net/socks5.cpp:350-368 | an arrival, however cut, keeps the invariant |
| `Socks5Protocol.HangupKeeps` | src/io/net/socks5.cpp:550-554 | a hang-up keeps the invariant |
| `Socks5Protocol.RunKeeps` | src/io/net/socks5.cpp:313-554 | the invariant holds over every run |
| `Socks5Protocol.SendsInOrder` | src/io/net/socks5.cpp:178-225 | only greeting, then credentials after the offered method 2 was picked, then the request after method 0 or accepted credentials; each behind all before it |
| `Socks5Protocol.ConsumesExactly` | src/io/net/socks5.cpp:341-368 | at the end exactly the bytes of the grammar are consumed whatever follows; before, no more is wanted than is missing |
| `Socks5Protocol.DoneMeansGranted` | src/io/net/socks5.cpp:514-540 | success means a whole reply with code 0, and its address or name and port recorded |
| `Socks5Protocol.StatusIsVerdict` | src/io/net/socks5.cpp:313-540 | over every run without a hang-up, the handshake is done if and only if the bytes consumed hold a complete granted reply, has failed if and only if they hold something unacceptable, for that reason, and otherwise goes on |
| `Socks5Protocol.StreamDecides` | src/io/net/socks5.cpp:558-635 | with everything queued written and all of a stream arrived, the same holds of the whole stream |
| `Socks5Protocol.OverIsOver` | src/io/net/socks5.cpp:313-338 | nothing changes a handshake that is done or failed |
| `Socks5Client.Socks5Handshake.constructor` | src/io/net/socks5.cpp:121-155 | everything that can be refused is refused before anything is sent; otherwise the greeting is queued |
| `Socks5Client.Socks5Handshake.Feed` | src/io/net/socks5.cpp:350-368 | the loop over the arrived bytes; a refused handshake takes nothing |
| `Socks5Client.Pump` | src/io/net/socks5.cpp:558-635 | whatever the socket answers, what was sent and consumed stays in order and never exceeds what is wanted; a refused handshake is left alone |
| `ResolverPool.StepConserves` | src/io/net/dns/resolver-pool.cpp:195-386 | no step loses a request, duplicates one or makes one up |
| `ResolverPool.StepCounts` | src/io/net/dns/resolver-pool.cpp:274-356 | a step keeps the busy count equal to the workers holding a request, and the live workers within the limit |
| `ResolverPool.StepOwesWakeup` | src/io/net/dns/resolver-pool.cpp:342-367 | a step never leaves a completed request without a wakeup that is pending, about to be sent, or being served |
| `ResolverPool.EveryInterleaving` | src/io/net/dns/resolver-pool.cpp:195-386 | in every interleaving each request is in exactly one place, delivered at most once, and the counts and wakeups are right |
| `ResolverPool.WorkersWithin` | src/io/net/dns/resolver-pool.cpp:241-314 | live workers never outnumber the largest limit that was set |
| `ResolverPool.SilentAfterCancel` | src/io/net/dns/resolver-pool.cpp:220-239 | a request that was cancelled, dropped or delivered is not delivered by any later step |
| `ResolverPool.LeftUnattended` | src/io/net/dns/resolver-pool.cpp:274-290 | a scheduler pass leaves a waiting request with nobody on the way exactly when every worker has left its loop and one has not raised its flag |
| `ResolverPool.OnlySchedulingLeaves` | src/io/net/dns/resolver-pool.cpp:195-386 | no other step leaves a request with nobody on the way |
| `ResolverPool.UnattendedForever` | src/io/net/dns/resolver-pool.cpp:274-356 | such a request waits through every interleaving until a caller submits, cancels or stops |
| `ResolverPool.LookupLeftWaiting` | src/io/net/dns/resolver-pool.cpp:316-356 | such a state is reached from the start |
| `DotSegments.WalkGood` | src/io/net/url.cpp:282-299 | the stack never holds an empty or a dot segment, and an empty stack means a trailing slash |
| `DotSegments.RemoveDotSegments` | src/io/net/url.cpp:268-317 | the whole function |
| `DotSegments.RewriteIsWalk` | src/io/net/url.cpp:259-317 | the rewriting of section 5.2.4 of RFC 3986 is a walk with a stack that counts empty segments |
| `DotSegments.AgreesWithRfc` | src/io/net/url.cpp:259-317 | on an absolute path the function is that rewriting if and only if no empty segment stays in effect |
| `DotSegments.NoneEmpty` | src/io/net/url.cpp:259-317 | none does when no segment but the last is empty |
| `DotSegments.EmptySegmentDropped` | src/io/net/url.cpp:291-294 | a path on which the two differ |
| `RelativePaths.RewriteIsFirst` | src/io/net/url.cpp:259-317 | the rewriting of a path without a leading slash: leading dot segments are dropped, and a slash stays in front once the first segment has been taken away |
| `RelativePaths.RelativeAgreesWithRfc` | src/io/net/url.cpp:259-317 | on a path without a leading slash the function is that rewriting if and only if there is a segment other than dots, no empty one follows before the last while it is there, and nothing stays behind it once it has been taken away |
| `RelativePaths.PlainPathsAgree` | src/io/net/url.cpp:259-317 | so it is behind a first segment without ".." and without empty segments before the last |
| `RelativePaths.FirstSegmentTaken` | src/io/net/url.cpp:286-290 | a relative path on which the two differ |
| `DotSegments.NoDotsLeft` | src/io/net/url.cpp:268-317 | on every path no "." and no ".." segment is left |
| `DotSegments.Idempotent` | src/io/net/url.cpp:268-317 | on every path doing it again changes nothing |
| `Base32.Encode` | src/util/base32.cpp:17-45 | the letters of the bits by fives and a terminator; the empty string when there is no room or no input; the rest of the buffer unchanged |
| `Base32.TakeWord` | src/util/base32.cpp:28-40 | five bits, within a byte or across two, zero filled at the end |
| `Base32.EncodedIsLetters` | include/samurai/util/base32.h:17-32 | exactly ceil(8n/5) characters, all of them letters |
| `Base32.Decode` | src/util/base32.cpp:47-81 | the bits of the letters fill the buffer as far as it reaches, zeros behind, and the bytes they fill are reported |
| `Base32.FindLetter` | src/util/base32.cpp:61-63 | the search in the alphabet finds the value of a letter and nothing else |
| `Base32.PutWord` | src/util/base32.cpp:64-77 | a word is put in at the bit position, across two bytes if need be |
| `Base32.NoiseIsSkipped` | src/util/base32.cpp:60-63 | characters outside the alphabet count for nothing |
| `Base32.RoundTrip` | src/util/base32.cpp:17-81 | decoding what was encoded, whatever is interleaved, into as many bytes restores every byte |
| `Base32.PlainRoundTrip` | src/util/base32.cpp:17-81 | in particular with nothing interleaved |

## Left out

- Tiger's compression function and the hash inside the tree are parameters; no result depends on them.
- MerkleTree.reset, and the leaf copies from right to left (src/crypto/digest/merkletree.cpp:195-242), which mirror those from left to right.
- A tree digest that runs into its failing assertion, or has no room for a leaf; `MerkleForest.BuildAborts` and `MerkleForest.CapacityExact` say when, and the constructor and the methods ask that it does not.
- MerkleDigest.TransferLeaves: asks for a nonzero size, since with zero the receiving digest hashes an empty block of its own.
- Buffer: appending a buffer to itself, a cost bound for the compactions inside `resize` (there is none), the binary numbers, and the searches for strings and from the end.
- HTTP: the request side, the client around the parser, and the header operations other than lookup.
- URL parsing and the merging of paths around `remove_dot_segments`.
- XML: the offset reported with an error; looking up attributes and lists of children; the document start and end calls of the event handler.
- XmlParser.ParseDocument: the parser hands its events to a log and the tree sink takes them from there, where the source calls the sink as it goes; both sinks always accept, so the parser cannot tell the difference.
- SOAP: turning the text of a fault code into a number and a device error.
- SoapRoundTrip.RoundTrip: for an action named Fault only that a fault is reported.
- Timers: the standard library's heap is modelled as a list with an earliest entry in front; the order of the others does not matter. Callbacks are given as lists of operations. Re-entrant `process` calls and repeating timers with an interval of zero, with which it does not end, are outside `Timers.TimerManager.Process`.
- SOCKS5: parsing the target as an address literal is an oracle, and the texts of errors are left out. In `Socks5Client.Pump` the socket's answers are given as a list.
- ResolverPool: no statement that a lookup is eventually picked up, since that is not so; the lookups themselves and the joining of threads on destruction.
- Base32: null pointers, which only an empty buffer or view can have.
- Percent coding, splitting and the remaining string helpers, which would add easy members only.
- Sockets, TLS, files, compression, character sets, the UPnP gateway and port mapper, and the command-line tools, which are I/O or glue.
