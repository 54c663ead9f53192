# Verified model of the network library's trees, ciphers, ring buffer and frame checks

The project models the four parts of the library that carry its logic, and proves what each of them is for. All arithmetic of
32-bit words is explicit: `bv32` where the code works on bits, numbers modulo 2^32 where it counts.

- **Balanced trees** (`include/tree.h`). `RedBlackTree` and `SplayTree` are classes over nodes whose link and colour fields
  the methods rewrite one assignment at a time, as the macros do. A ghost tree beside the head says which shape the fields
  spell out; `RedBlackMemory` and `SplayMemory` say what each group of assignments does to that shape, `RedBlackShape` and
  `SplayShape` what it does to order and balance. Keys are compared as integers. `SplayCost` proves the amortised bound that
  the header documents and `SplayRuns` that any run of operations is a run on a mathematical set.
- **DES** (`src/leo_standard_des_crypto.c`, `src/leo_des_crypto.c`). `StandardDes`, `StandardDesCipher` and `TripleDes` are
  the engine that follows FIPS 46-3 bit by bit, `FastDesKeys`, `FastRound` and `FastDes` the one with fused tables. The main
  theorem is that the second computes the cipher of the first for every key and block. `CipherModes` proves the chaining
  laws for any block cipher and `FastDesModes` ties `ecb_crypt` and `cbc_crypt` to them.
  `SemiWeakKeys` says exactly which two keys have each other's schedule in reverse; `DesKnownAnswer` is a published worked
  example, for the table entries that no law fixes.
- **Ring buffer** (`src/ring_buffer.cpp`). `RingBuffer` is the class used by one thread, a bounded queue across every
  wrap-around of its counters; `RingConcurrent` is one producer and one consumer at work at the same time, as a step system
  under sequential consistency in which the barriers are the order of the steps.
- **Frames** (`src/leo_dof_crypto.c`, `src/leo_tcp_game_protocol.c`). `FrameChecksum` is the checksum as coded, which is not
  CRC-32; `ErrorDetection` says exactly which changes it notices; `XorStream` is the stream; `GameProtocol` is what a session
  does with the frames it receives.

Where the code and its surroundings disagree, the model follows the code:

- `crc32_table` is declared with 255 entries (`src/leo_dof_crypto.c:5`) but filled and read at 0 to 255; the model has 256.
- `_SPLAY_REMOVE` returns its argument, not the node it took out (`include/tree.h:197`), and `_SPLAY_MINMAX` with direction 0
  never ends (`include/tree.h:246-269`), so the model asks for another direction.
- `ecb_crypt` and `cbc_crypt` always work in software, and report an error when the caller did not ask for software
  (`src/leo_des_crypto.c:614`). The rounding of the length wraps to 0 for the seven largest lengths.
- `transform_buffer_to_message` returns 0 also when it accepts a frame (`src/leo_tcp_game_protocol.c:76`).
- `RB_AUGMENT` is empty (`include/tree.h:331-333`), and so its loop in `_RB_REMOVE` does nothing.

The `hide` statements at the head of some bodies only keep definitions out of a proof that does not need them.

## Model

| member | source | states |
|---|---|---|
| RedBlackTree.Head.Insert | include/tree.h:577-606 | An absent key: the tree is red-black again (ordered, black root, no red-red edge, equal black height, consistent parent links) and holds exactly the new node more. A present key: its node is returned and nothing at all changes. At most 2 rotations. |
| RedBlackTree.Head.InsertColor | include/tree.h:390-431 | From "red-black but for a red node that may have a red parent" the loop ends in a red-black tree with the same nodes in the same order, after at most 2 rotations. |
| RedBlackTree.Head.InsertTurnLeft | include/tree.h:396-412 | One turn with the parent on the left: either the red pair moves two levels up, or it is repaired by one or two rotations and the loop ends. |
| RedBlackTree.Head.InsertTurnRight | include/tree.h:413-428 | The mirror image. |
| RedBlackTree.Head.FindSlot | include/tree.h:584-594 | The search ends at the key, or at the one empty place where the new node keeps the order. |
| RedBlackTree.Head.Remove | include/tree.h:510-575 | For every valid tree and every member node: the result is a valid red-black tree with exactly the other nodes, by identity and in order; the node itself is returned; at most 3 rotations. |
| RedBlackTree.Head.RemoveColor | include/tree.h:434-508 | From "one black short here" the loop ends in a red-black tree with the same nodes in the same order, after at most 3 rotations. |
| RedBlackTree.Head.RemoveTurnLeft | include/tree.h:439-471 | One turn with the short side on the left: the shortage moves one level up, or is repaid and the loop ends; the rotations left are accounted for. |
| RedBlackTree.Head.RemoveTurnRight | include/tree.h:472-504 | The mirror image. |
| RedBlackTree.Head.BlackSiblingLeft | include/tree.h:440-445 | The sibling is never NULL where it is dereferenced, and after the first case it is black. |
| RedBlackTree.Head.BlackSiblingRight | include/tree.h:473-478 | The mirror image. |
| RedBlackTree.Head.TakeSuccessor | include/tree.h:521-536 | The successor is found and spliced out; the links of its neighbours, its colour and the place it left are the ones recorded. |
| RedBlackTree.Head.SwapIn | include/tree.h:537-550 | The successor takes over every link and the colour of the removed node, also when it was its right child. |
| RedBlackTree.Head.RotateLeft | include/tree.h:335-353 | Every link of the rotated shape is in place, parent links and head included, and the in-order sequence is the same. |
| RedBlackTree.Head.RotateRight | include/tree.h:355-373 | The mirror image. |
| RedBlackTree.Head.Find | include/tree.h:609-624 | The node with the key, or NULL exactly when no node has it. |
| RedBlackTree.Head.MinMax | include/tree.h:647-660 | The first node for a negative argument, the last one otherwise; NULL for an empty tree. |
| RedBlackTree.Head.Next | include/tree.h:626-645 | The node after the given one in key order, or NULL after the last; both climbs end. |
| RedBlackTree.Head.Foreach | include/tree.h:672-675 | The walk visits every node once, in increasing key order, and then stops. |
| RedBlackShape.HeightBound | include/tree.h:53-54 | The documented bound: 2^h <= (n + 1)^2 for every red-black tree of n nodes and height h. |
| RedBlackShape.BlackHeightBounds | include/tree.h:46-50 | Black height b: at least 2^b - 1 nodes and height at most 2b, one more under a red root. |
| RedBlackShape.PlugRedBlack | include/tree.h:46-50 | A balanced subtree in a balanced surrounding makes a red-black tree. |
| RedBlackShape.FlippedBalanced | include/tree.h:397-402 | Recolouring with a red uncle keeps every black height and passes the red pair up. |
| RedBlackShape.LiftedLeftBalanced | include/tree.h:404-412 | The rotations with a black uncle remove the red pair and keep every black height. |
| RedBlackShape.LiftedLeftWhole | include/tree.h:404-412 | They keep the in-order sequence. |
| RedBlackShape.SiblingExists | include/tree.h:439-441 | Where one side is a black short, the other side is a node. |
| RedBlackShape.RedSiblingLeftShort | include/tree.h:441-445 | After the rotation for a red sibling the same place is still one short, one level deeper, under a red parent. |
| RedBlackShape.BlackNephewsLeft | include/tree.h:446-453 | Two black nephews: reddening the sibling moves the shortage to the parent. |
| RedBlackShape.RepaidLeftBalanced | include/tree.h:454-469 | A red nephew: the rotations give the short side its black node back. |
| RedBlackShape.RepaidLeftWhole | include/tree.h:454-469 | They keep the in-order sequence. |
| RedBlackShape.SuccessorFits | include/tree.h:519-538 | Black heights when an inner node is replaced by its successor. |
| RedBlackShape.RemoveWhole | include/tree.h:510-575 | What is left of the in-order sequence when a node goes. |
| RedBlackShape.SuccessorNext | include/tree.h:629-642 | The node reached through left, right and parent links is the next one in order. |
| RedBlackMemory.RotateLeftAt | include/tree.h:335-353 | The assignments of a rotation, as a group, turn the links of one shape into those of the rotated shape, wherever it hangs. |
| RedBlackMemory.RotateRightAt | include/tree.h:355-373 | The mirror image. |
| RedBlackMemory.SpliceAt | include/tree.h:527-536 | Taking out a node with one child relinks that child under the parent or the head. |
| RedBlackMemory.ReplaceAt | include/tree.h:539-550 | Giving a node the fields of another and redirecting its neighbours puts it in the other's place. |
| RedBlackMemory.NewLeaf | include/tree.h:595-603 | The new node hangs where the search ended. |
| SplayTree.Head.Splay | include/tree.h:202-235 | For every non-empty tree: the loop ends, the in-order sequence is kept through header node and assembly, the root is the matching node or the immediate predecessor or successor of the key, and the shape and the number of turns are the functions Splayed and Turns of the shape before. |
| SplayTree.Head.SplayLoop | include/tree.h:209-233 | Middle tree and both sides together keep the sequence, the two sides lie below and above the key, and the middle tree shrinks. |
| SplayTree.Head.TurnLeft | include/tree.h:210-219 | One turn to the left: rotation, break and link as the code takes them. |
| SplayTree.Head.TurnRight | include/tree.h:220-229 | The mirror image. |
| SplayTree.Head.RotateRight | include/tree.h:81-85 | The links after the rotation of the root. |
| SplayTree.Head.LinkLeft | include/tree.h:93-97 | The root joins the right side at its open link, which may be the header node's. |
| SplayTree.Head.Assemble | include/tree.h:105-110 | The four assignments hang both sides under the root, also when one side or both are still the header node itself. |
| SplayTree.Head.Find | include/tree.h:120-130 | The node with the key, then at the root, or NULL exactly when no node has it. |
| SplayTree.Head.Insert | include/tree.h:157-179 | An absent key: exactly the new node more, at the root. A present key: its node is returned and the contents stay. |
| SplayTree.Head.Remove | include/tree.h:181-200 | A present key: exactly its node is gone, and the argument is returned. An absent key: the contents stay and NULL is returned. |
| SplayTree.Head.SplayLeft | include/tree.h:191-194 | After the second splay of a removal the new root has no right child, so no subtree is lost; the set-aside right half is not touched. |
| SplayTree.Head.HangRight | include/tree.h:195-195 | The right half becomes the right subtree of the new root. |
| SplayTree.Head.MinMax | include/tree.h:146-151 | The extreme node is at the root and is returned (direction not 0, tree not empty). |
| SplayTree.Head.Next | include/tree.h:132-144 | The node after the given one in key order, or NULL after the last. |
| SplayTree.Head.Foreach | include/tree.h:285-288 | Every node once and in increasing order, although each step rebuilds the tree. |
| SplayMemory.AssembleState | include/tree.h:105-110 | The header node aliases both sides; after the four assignments the links spell out the assembled tree. |
| SplayMemory.LinkLeftState | include/tree.h:93-97 | The effect of linking on the links of all three trees. |
| SplayMemory.RotateRightState | include/tree.h:81-85 | The effect of the rotation on the links of all three trees. |
| SplayShape.StoppedClosest | include/tree.h:209-235 | When the loop is left, assembling gives the same sequence with the closest node at the root. |
| SplayShape.ClosestFinds | include/tree.h:127-129 | The root has the key exactly when some node has it. |
| SplayShape.ClosestEnd | include/tree.h:240-271 | After _SPLAY_MINMAX the root is the first or the last node and has no child on that side. |
| SplayShape.ClosestAbove | include/tree.h:191-195 | Splaying for a key above all others leaves the root without a right child. |
| SplayCost.AmortisedBound | include/tree.h:42-44 | The documented amortised cost: any m operations from the empty tree, with at most n nodes at a time, turn the splay loops at most m (12 lg n + 4) times. |
| SplayCost.OpPaid | include/tree.h:42-44 | One find, insert, remove or minimum/maximum: its turns are paid by the fall of the potential and 12 lg n + 4. |
| SplayCost.SplayPaid | include/tree.h:202-235 | One splay: turns + 2 * potential after <= 2 * potential before + 6 lg n + 2. |
| SplayCost.ZigZigLeftPaid | include/tree.h:210-219 | The case of a rotation and a link. |
| SplayCost.ZigZagLeftPaid | include/tree.h:210-229 | The case of a link to either side. |
| SplayCost.ZigZagZagLeftPaid | include/tree.h:210-229 | The case of a link, then a rotation and a link on the other side. |
| SplayCost.TwoParts | include/tree.h:42-44 | Two disjoint parts of a tree cannot both have its rank. |
| SplayCost.RankIsLog | include/tree.h:42-44 | The rank is the logarithm to base 2, rounded down. |
| SplayCost.GoesLeft | include/tree.h:210-219 | One turn of the loop keeps "splay what is left and assemble" equal to the final tree, and the turns already made plus those to come. |
| SplayCost.GoesRight | include/tree.h:220-229 | The mirror image. |
| SplayCost.TurnsFollowPath | include/tree.h:209-233 | What is counted: a search that follows d links turns the loop at least d / 2 and at most d + 1 times, and not at all only when the key is at the root. |
| SplayRuns.RunIsSetRun | include/tree.h:120-200 | From the empty tree, every run of operations leaves a sorted tree with exactly the keys of a mathematical set under the same run, and the next operation finds its key exactly when the set has it. |
| SplayRuns.OpIsSetOp | include/tree.h:120-200 | One operation is the set operation on the keys. |
| SplayRuns.RejoinedWhole | include/tree.h:190-195 | The join of a removal loses nothing but the removed node. |
| SplayRuns.SplayedInOrder | include/tree.h:202-235 | The splayed tree has the same in-order sequence. |
| SplayRuns.SplayedClosest | include/tree.h:202-235 | Its root is the closest node to the key. |
| StandardDes.DesKeySetup | src/leo_standard_des_crypto.c:190-248 | For both modes the sixteen rows are the round keys of FIPS 46-3, Appendix 1, forwards for enciphering and backwards for deciphering; SemiWeakKeys.ReversedIff and DesKnownAnswer.KnownSchedule tie down the table of shifts. |
| StandardDes.Choose | src/leo_standard_des_crypto.c:219-224 | Permuted choice 1 by the loop: every bit of the half is the key bit that the table names, and the low nibble is zero. |
| StandardDes.FillRow | src/leo_standard_des_crypto.c:237-246 | Permuted choice 2 by the two loops into a cleared row: 48 bits in six bytes, no other row touched. |
| StandardDes.HalvesTurn | src/leo_standard_des_crypto.c:227-228 | The two rotations move every bit of both 28-bit halves to its place for the next round. |
| StandardDes.HalvesKey | src/leo_standard_des_crypto.c:241-246 | The chosen bits of the turned halves are the round key. |
| StandardDesCipher.DesCrypt | src/leo_standard_des_crypto.c:250-265 | The output block is the cipher of FIPS 46-3 on the input block under the given schedule; output and input may be the same array. |
| StandardDesCipher.CipherFunction | src/leo_standard_des_crypto.c:132-188 | The array version of f is E, key addition, S-boxes and P. |
| StandardDesCipher.CipherUndone | src/leo_standard_des_crypto.c:250-265 | For an arbitrary schedule, its reverse undoes it. |
| StandardDesCipher.DecryptionReverses | src/leo_standard_des_crypto.c:230-236 | Decrypt mode builds exactly the reverse of encrypt mode, and the other way round. |
| StandardDesCipher.Deciphered | src/leo_standard_des_crypto.c:190-265 | Each mode undoes the other, for every key and block. |
| StandardDesCipher.IpOfInvIp | src/leo_standard_des_crypto.c:76-130 | IP after its inverse is the identity. |
| StandardDesCipher.InvIpOfIp | src/leo_standard_des_crypto.c:76-130 | The inverse after IP is the identity. |
| StandardDesCipher.Complementation | src/leo_standard_des_crypto.c:132-265 | Complementing key and block complements the output, for all keys, blocks and both modes. |
| StandardDesCipher.NotBoth | src/leo_standard_des_crypto.c:137-161 | The complements cancel between expansion and key addition. |
| StandardDesCipher.NotRoundBit | src/leo_standard_des_crypto.c:197-246 | Every bit of a round key is a copied key bit. |
| Feistel.ReversedUndoes | src/leo_standard_des_crypto.c:256-262 | Any round function, any number of rounds: the reversed keys with the sides changed lead back. |
| Feistel.ComplementedRounds | src/leo_standard_des_crypto.c:256-262 | A round function that ignores complementing both arguments makes a network that commutes with complement. |
| Feistel.SameRounds | src/leo_standard_des_crypto.c:256-262 | Networks whose rounds agree agree. |
| TripleDes.ThreeDesKeySetup | src/leo_standard_des_crypto.c:267-279 | Enciphering: the first schedule is made from bytes 0-7 and the third from bytes 16-23; deciphering the other way round; the second from bytes 8-15 for the opposite mode. |
| TripleDes.ThreeDesCrypt | src/leo_standard_des_crypto.c:281-286 | Three ciphers in a row, the second and third in place. |
| TripleDes.OutermostKey | src/leo_standard_des_crypto.c:267-286 | Which key acts last: undoing single DES with the third key (enciphering) or the first (deciphering) leaves what the other two made of the block. |
| TripleDes.InnermostKey | src/leo_standard_des_crypto.c:267-286 | Which key acts first: a block treated beforehand with the inverse of single DES under the first key (enciphering) or the third (deciphering) takes it out. |
| TripleDes.TripleDeciphered | src/leo_standard_des_crypto.c:267-286 | Each mode undoes the other for any three keys. |
| TripleDes.TripleCollapses | src/leo_standard_des_crypto.c:267-286 | Two neighbouring equal keys cancel; three equal keys are single DES. |
| KeyParity.SameScheduleIff | src/leo_standard_des_crypto.c:190-248 | Two keys have the same schedule if and only if they agree outside the 8 parity bits. |
| KeyParity.SameKeyOfRound | src/leo_standard_des_crypto.c:219-246 | No round key depends on a parity bit. |
| KeyParity.SeenBit | src/leo_standard_des_crypto.c:197-246 | The first two round keys together show every other bit of the key. |
| SemiWeakKeys.ReversedIff | src/leo_standard_des_crypto.c:190-248 | For any two keys: the schedules are each other's reverse if and only if, up to parity bits, the halves of both keys alternate between two values and those of one start where the other's go on. |
| SemiWeakKeys.DualIsPublished | src/leo_standard_des_crypto.c:190-248 | Those sixteen pairs are the six semi-weak pairs in both orders and the four weak keys with themselves, as published. |
| SemiWeakKeys.PublishedUndo | src/leo_standard_des_crypto.c:190-265 | Enciphering with one key of such a pair and then with the other gives every block back. |
| SemiWeakKeys.MirroredAlternate | src/leo_standard_des_crypto.c:225-246 | If every round key of one key is that of the other counted from the end, both halves of both keys alternate. |
| SemiWeakKeys.TwoApart | src/leo_standard_des_crypto.c:225-246 | In such a key any two bits of a half that are two places apart agree, also where the compression drops one of them. |
| SemiWeakKeys.AlternatingMirrored | src/leo_standard_des_crypto.c:225-246 | Conversely, because the shifts up to round n and those up to round 15 - n differ by an odd number. |
| DesKnownAnswer.KnownSchedule | src/leo_standard_des_crypto.c:190-248 | Key 133457799BBCDFF1: all sixteen round keys are the published ones, forwards and backwards. |
| DesKnownAnswer.KnownAnswer | src/leo_standard_des_crypto.c:132-265 | Under that key the block 0123456789ABCDEF enciphers to 85E813540F0AB405. |
| FastDesKeys.SetKey | src/leo_des_crypto.c:26-118 | The sixteen pairs of words are the round keys of the standard, even and odd groups of six bits packed apart, with the engine's own pc1, pc2 and shift tables. |
| FastDesKeys.PermutedChoice1 | src/leo_des_crypto.c:61-77 | Shifting the key bytes out bit by bit through pc1 fills both halves as the standard does, four places lower. |
| FastDesKeys.PlaceOfBit | src/leo_des_crypto.c:32-41 | pc1, which says where a key bit goes, is the inverse of the standard's table, which says where a bit comes from. |
| FastDesKeys.ChooseSix | src/leo_des_crypto.c:89-94 | The inner loop with the moving mask collects six bits. |
| FastDesKeys.Pc2Opposite | src/leo_des_crypto.c:43-55 | pc2_c and pc2_d count the bits of a half from the other end. |
| FastDesKeys.SextetsPacked | src/leo_des_crypto.c:108-116 | Eight groups of six bits in two words are the six bytes of the standard. |
| FastDesSpec.TransposeIsIp | src/leo_des_crypto.c:522-539 | The table lookups with shifts compute the initial permutation. |
| FastDesSpec.FinalIsInvIp | src/leo_des_crypto.c:580-604 | The final lookups compute its inverse, with the sides changed. |
| FastRound.FastFIsF | src/leo_des_crypto.c:541-556 | Two rotations, two exclusive ors and eight fused tables compute the standard's f, for all halves and round keys. |
| FastRound.GroupsOfExpanded | src/leo_des_crypto.c:545-548 | The rotations bring the eight groups of the E expansion into place. |
| FastRound.Fused0 | src/leo_des_crypto.c:227-374 | The first fused table is P after S1; the lemmas Fused1 to Fused7 beside it do the others. |
| FastRound.PboxXor | src/leo_standard_des_crypto.c:173-184 | P is linear. |
| FastDes.FastIsStandard | src/leo_des_crypto.c:516-605 | The table-driven engine computes the same block as FIPS 46-3, for all blocks and all round keys. |
| FastDes.DesCrypt | src/leo_des_crypto.c:516-605 | des_crypt on a block in place, flag 0 or not: exactly the standard's enciphering or deciphering under the key that was set, whatever its parity bits; no other byte of the buffer changes. |
| FastDes.AllRounds | src/leo_des_crypto.c:541-579 | Both loops, forwards and backwards through the keys. |
| FastDesModes.EcbCrypt | src/leo_des_crypto.c:607-615 | Bit 0 of the mode clear: every block up to the length rounded up to 8 is enciphered; set: deciphered. Bytes beyond are untouched. The status is 0 exactly when bit 1 of the mode is set. |
| FastDesModes.CbcCrypt | src/leo_des_crypto.c:618-676 | Bit 0 of the mode clear: text and vector are those of enciphering in chaining mode; set: those of deciphering. Bytes beyond the rounded length are untouched. The status is 0 exactly when bit 1 of the mode is set. |
| FastDesModes.Rounded | src/leo_des_crypto.c:610-610 | (len + 7) & ~7 in 32 bits: the length rounded up to 8, except that the seven largest lengths become 0. |
| FastDesModes.CbcUndone | src/leo_des_crypto.c:618-676 | Each direction undoes the other from the same starting vector, and leaves the same vector. |
| FastDesModes.EcbBack | src/leo_des_crypto.c:607-615 | A call with any mode word and one with its lowest bit changed: the whole buffer is back. |
| FastDesModes.CbcBack | src/leo_des_crypto.c:618-676 | The same in chaining mode from two equal vectors, which are equal again afterwards. |
| FastDesModes.DesUndoes | src/leo_des_crypto.c:516-605 | The two directions of the engine undo each other. |
| CipherModes.EncryptedBlock | src/leo_des_crypto.c:625-643 | The recurrence of section 6.2 of NIST SP 800-38A for every block. |
| CipherModes.DecryptedBlock | src/leo_des_crypto.c:646-672 | The same for deciphering. |
| CipherModes.CbcRoundTrip | src/leo_des_crypto.c:618-676 | For any block cipher: text restored, same vector left. |
| CipherModes.CbcRoundTripBack | src/leo_des_crypto.c:618-676 | The other way round: enciphering what was deciphered from the same vector. |
| CipherModes.EncryptedInParts | src/leo_des_crypto.c:625-643 | A + B in one call is A, then B with the vector that A left. |
| CipherModes.DecryptedInParts | src/leo_des_crypto.c:646-672 | The same for deciphering. |
| CipherModes.LastBlockLeft | src/leo_des_crypto.c:635-671 | Both directions leave the last ciphertext block in the vector. |
| CipherModes.EcbRoundTrip | src/leo_des_crypto.c:607-615 | For any block cipher: codebook mode undone. |
| CipherModes.EcbBlock | src/leo_des_crypto.c:607-615 | Codebook mode treats every block by itself: section 6.1 of NIST SP 800-38A. |
| RingBuffer.Ring.KfifoPut | src/ring_buffer.cpp:134-164 | Appends the first min(len, free) bytes to the queue, across every wrap-around of the 32-bit counters. |
| RingBuffer.Ring.KfifoGet | src/ring_buffer.cpp:103-132 | Removes the first min(len, used) bytes into the buffer and leaves the rest of the buffer alone. |
| RingBuffer.Ring.PeekRead | src/ring_buffer.cpp:22-53 | All the bytes wanted are copied and stay in the queue, or nothing happens. |
| RingBuffer.Ring.SeekRead | src/ring_buffer.cpp:55-62 | Drops the bytes exactly when that many are there. |
| RingBuffer.Ring.PeekWrite | src/ring_buffer.cpp:64-92 | All the bytes go into the room behind the queue, or nothing happens; the queue does not change. |
| RingBuffer.Ring.SeekWrite | src/ring_buffer.cpp:94-101 | Takes the bytes in the room into the queue exactly when that much room is there. |
| RingBuffer.Ring.CopyInCells | src/ring_buffer.cpp:149-153 | The two memcpys of a write fill exactly the cells after the write counter. |
| RingBuffer.Ring.CopyOut | src/ring_buffer.cpp:118-122 | The two memcpys of a read hand over exactly the oldest bytes. |
| RingBuffer.Ring.Counts | src/ring_buffer.cpp:66-70 | used and available, computed in 32 bits, are the lengths of queue and room. |
| RingBuffer.Ring.constructor | src/ring_buffer.cpp:3-12 | A new buffer is an empty queue. |
| RingBuffer.GetInTwo | src/ring_buffer.cpp:22-62 | peek_read and seek_read together are a get. |
| RingBuffer.PutInTwo | src/ring_buffer.cpp:64-101 | peek_write and seek_write together are a put. |
| RingSlots.PowerOfTwoTest | src/ring_buffer.cpp:11-11 | x != 0 and (x & (x - 1)) == 0 holds exactly for the powers of two. |
| RingSlots.MaskIsRemainder | src/ring_buffer.cpp:37-38 | Masking with a power of two less one is the remainder. |
| RingSlots.WrapKeepsSlot | src/ring_buffer.cpp:118-118 | The place in the buffer is the same before and after a counter wraps around. |
| RingSlots.Distance | src/ring_buffer.cpp:28-28 | The 32-bit difference of two counters is their distance. |
| RingConcurrent.Safety | src/ring_buffer.cpp:103-164 | In every interleaving of one producer and one consumer, what was got is a prefix of what was put, 0 <= w - r <= size by the 32-bit counters, and an empty buffer means all was got. |
| RingConcurrent.NoRace | src/ring_buffer.cpp:118-153 | In every interleaving, the cell about to be written is not waiting to be read and is not the cell about to be read. |
| RingConcurrent.GetsNext | src/ring_buffer.cpp:117-131 | A get hands over exactly the bytes that come next. |
| RingConcurrent.GetFits | src/ring_buffer.cpp:109-109 | A get takes on min(wanted, waiting) bytes by the write counter it sampled, and that step changes nothing but the consumer. |
| RingConcurrent.EmptyTells | src/ring_buffer.cpp:103-107 | The first sample moves a get on exactly when bytes are waiting, and changes nothing else. |
| RingConcurrent.WhatStepsChange | src/ring_buffer.cpp:103-164 | The bytes put grow by exactly those a put took from its caller and the bytes got by exactly those of the get, each at its own publishing step and at no other; only the producer's copying changes a cell, and never one that is waiting. |
| RingConcurrent.EverythingArrives | src/ring_buffer.cpp:103-164 | From every reached state, however both calls are interrupted, the run can go on until all that was put and all of a put in progress is got. |
| RingConcurrent.Drains | src/ring_buffer.cpp:103-132 | Whatever the consumer is at, its own steps alone can empty the buffer. |
| RingConcurrent.PutEnds | src/ring_buffer.cpp:134-164 | A put in progress can be finished by its own steps, and publishes exactly its bytes. |
| RingConcurrent.PutFits | src/ring_buffer.cpp:140-140 | A put takes the first min(len, free) bytes by the counters it sampled, and that step changes nothing but the producer. |
| RingConcurrent.InBounds | src/ring_buffer.cpp:118-153 | No copy leaves the cells or the caller's buffer. |
| RingConcurrent.NextKeeps | src/ring_buffer.cpp:103-164 | Every step of either side keeps the invariant. |
| RingConcurrent.StoreKeeps | src/ring_buffer.cpp:149-153 | A byte copied in disturbs no byte that is readable. |
| RingConcurrent.NeverStuck | src/ring_buffer.cpp:149-153 | An unfinished copy always has a byte that is due. |
| FrameChecksum.InitialCrc32Table | src/leo_dof_crypto.c:77-96 | The generated table is the reflected table of CRC-32, entry by entry. |
| FrameChecksum.Reflect | src/leo_dof_crypto.c:62-75 | reflect(l, c) is the lowest c bits of l in reverse. |
| FrameChecksum.DoubleIsHalve | src/leo_dof_crypto.c:84-93 | Doubling with one polynomial and halving with its reflection are the same step. |
| FrameChecksum.GenerateCrc32 | src/leo_dof_crypto.c:98-118 | The loop folds the bytes over the table, most significant byte out first. |
| FrameChecksum.CrcAppend | src/leo_dof_crypto.c:106-114 | The checksum can be continued from any prefix. |
| ErrorDetection.CrcXor | src/leo_dof_crypto.c:98-118 | The checksum is linear over exclusive or, in data and starting value together. |
| ErrorDetection.FedInjective | src/leo_dof_crypto.c:107-111 | Every update is a bijection on the state. |
| ErrorDetection.LowByteTells | src/leo_dof_crypto.c:77-96 | The low byte of the table is a bijection. |
| ErrorDetection.EntryXor | src/leo_dof_crypto.c:77-96 | The table is linear. |
| ErrorDetection.BurstNoticed | src/leo_dof_crypto.c:98-118 | Messages of any equal length that differ only inside four neighbouring bytes have the same checksum only if they are equal. |
| ErrorDetection.UnnoticedIff | src/leo_dof_crypto.c:98-118 | A change inside any window goes unnoticed exactly when the difference alone has checksum 0. |
| ErrorDetection.FiveByteBurst | src/leo_dof_crypto.c:98-118 | Five bytes: unnoticed exactly when the last four differences are the table entry of the first. |
| ErrorDetection.UnnoticedExample | src/leo_dof_crypto.c:98-118 | Such a pair of messages, so four is the largest window. |
| XorStream.XorCrypt | src/leo_dof_crypto.c:25-55 | Whole words meet key byte k mod 16, the one to three bytes left start again at key byte 0; nothing else changes. |
| XorStream.XoredTwice | src/leo_dof_crypto.c:57-60 | The same call again restores the bytes. |
| GameProtocol.CheckCrc32 | src/leo_dof_crypto.c:120-128 | True exactly when trailer byte j is bits 8j to 8j + 7 of the checksum of everything before it. |
| GameProtocol.AboutCrypt.TransformBufferToMessage | src/leo_tcp_game_protocol.c:54-77 | The frame is opened in place; the sequence id goes up by one exactly when, byte by byte and the least first, the trailer spells the checksum and bytes 2 to 5 spell the sequence id under the session key, and nothing else of the session changes; the result is always 0. |
| GameProtocol.LittleIs | src/leo_dof_crypto.c:124-124 | The byte order of trailer and sequence number: byte j counts 256^j. |
| GameProtocol.AcceptedByBytes | src/leo_tcp_game_protocol.c:54-77 | Acceptance by checksum and number is acceptance byte by byte. |
| GameProtocol.OpenAndCheck | src/leo_tcp_game_protocol.c:57-62 | xor_decrypt behind the length field, then check_crc32. |
| GameProtocol.SealedAccepted | src/leo_tcp_game_protocol.c:54-77 | A frame laid out as the receiver reads it passes both checks if and only if it carries the number that is due. |
| GameProtocol.SealedRunAccepted | src/leo_tcp_game_protocol.c:54-77 | Frames numbered from 0 on and received in order are all accepted, beyond 2^32 of them too. |
| GameProtocol.AboutCrypt.SendKey | src/leo_tcp_game_protocol.c:3-12 | The session starts at sequence id 0 with the chosen keys. |
| GameProtocol.SequenceIsNumber | src/leo_tcp_game_protocol.c:54-77 | After send_key and any run of frames the sequence id is, modulo 2^32, how many frames passed both checks. |
| GameProtocol.AcceptedCarriesCount | src/leo_tcp_game_protocol.c:60-74 | The frame accepted after k others carries sequence number k, and an intact frame that carries it is accepted. |
| GameProtocol.NoEarlyReplay | src/leo_tcp_game_protocol.c:70-74 | Two acceptances of one frame are a multiple of 2^32 accepted frames apart. |
| GameProtocol.AlteredDataRejected | src/leo_tcp_game_protocol.c:59-62 | A good frame changed in up to four neighbouring bytes ahead of the trailer leaves the session as it was. |
| GameProtocol.AlteredTrailerRejected | src/leo_tcp_game_protocol.c:59-62 | So does a good frame changed only in its trailer. |

## Left out

- Sockets, event loop, sessions' queues, message objects and start-up code (`src/main.c`, `src/leo_net_service.c`, `src/leo_net_session.cpp`, `src/leo_net_message.cpp`): plumbing and accessors around the parts modelled here, with only easy properties.
- `transform_message_to_buffer`: its layout differs from the one `transform_buffer_to_message` reads, so there is no round trip to prove.
- The frame that `send_key` builds: only its effect on the session is modelled; the two random choices are parameters.
- `initial_xor_keys` and `rand_xor_key`: keys are arbitrary inputs.
- `des_setparity` is static and unused; the `SMALL` build of the S-box tables is not modelled.
- Comparison functions other than on integer keys, and user data in nodes.
- The amortised bound counts the turns of the splay loops; the walk of `_SPLAY_NEXT` down the right subtree is not counted.
- Weak memory: the ring buffer's barriers are taken as the order of steps, not as fences on hardware; two producers or two consumers are not allowed, as the header says.
- Buffers and keys that overlap each other, except output and input of the bit-level `des_crypt`: a key is passed by value, and the buffer and the vector of `cbc_crypt` are two arrays.
- The global `keys` of the table-driven engine is an array that the caller passes on.
- Negative message lengths, and messages shorter than two bytes, for which `transform_buffer_to_message` would read before its buffer.
- `src/leo_lock_free_queue.h`: the ring buffer's design again, for single elements.
- `write_p`, `read_p`, `full` and the destructor of the ring buffer.
- RedBlackTree.Head.Remove: the fields of the removed node itself are left as they are and not described, because the code does not clear them.
