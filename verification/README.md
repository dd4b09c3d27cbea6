# n3n in Dafny

A model of the parts of n3n that are hardest to get right, with proofs of what they are for:

- **X25519** (`Field25519`, `Montgomery`, `CurveLaw`, `Limbs`, `Curve25519`, `X25519`): the 8-bit limb
  arithmetic of `src/curve25519.c` on 32-bit words, with every wrap-around written out, refines section 5 of
  RFC 7748. `Field25519` is that section on integers; nothing in it knows of limbs. `Montgomery` says what the
  ladder computes, the multiple of the point by doubling and by adding points of known difference, and
  `CurveLaw` that the formulas for this are the tangent and the chord of the curve.
- **uthash** (`UtHash`, `MergeSort`, `HashSort`): the intrusive table of `include/uthash.h` as linked
  objects on the heap. `Table.Valid` is what `HASH_FSCK` walks, and `contents` is the plain map the table
  stands for. `MergeSort` is the bottom-up merge sort on sequences, `HashSort` the in-place `HASH_SRT`.
- **AES and CBC** (`AesTables`, `AesSpec`, `Aes`, `AesKeys`, `AesVector`, `Cbc`): the T-table cipher of
  `src/aes.c` against FIPS 197, key schedules included, with an example of the standard, and cipher block
  chaining in its plain and its four-rail form.
- **ChaCha20** (`ChaChaSpec`, `ChaCha`, `ChaChaVector`): the plain and the SSE2 form of `src/cc20.c` against
  RFC 8439, with two of its test vectors.
- **Packet headers** (`HeaderEncryption`): the in-place header encryption of `src/header_encryption.c`.
- **Time stamps** (`TimeStamp`): the branchless generator in `src/n2n.c` over whole runs.
- **Key texts** (`Auth`): the six-bit codec of `src/auth.c`.
- **Registration** (`EdgeSpec`, `EdgeRuns`, `Edge`): what `src/edge_utils.c` does with supernodes,
  acknowledgements and packets, as a state machine with a log of deeds; its runs, in any order of events
  and in the order in which the program makes its calls; and the handlers that are its steps.
- **Descriptors** (`Mainloop`): slots and connection buffers of `src/mainloop.c`.

`Bits` has the C operators on unsigned integers that the integer models use. A method named like a C
function has its control flow; a function or predicate named in its contract says what the result means.
Methods that change memory are tied by their contracts to specification functions, and the lemmas are
about those functions. Types of fixed width are bounded integers with explicit remainders, or bit-vectors
where the code is about bits (AES, ChaCha20).

Where the code and what is written about it differ, the code is modelled:

- The comment on `time_stamp` gives the counter 24 bits once the sub-second part is dropped; the code
  gives it 28 (`src/n2n.c:507-520`, `src/n2n.c:534-551`). The stamps of a second that begins with the
  flag set are all different if and only if there are at most 2^28 of them, or 2^28 + 1 in an even second
  (`TimeStamp.UsedUpRepeats`; `TimeStamp.RepeatReached` is a clock that goes one too far).
- `ascii_to_bin` looks at `a2b[ch]` where it later reads `a2b[ch - 0x20]` (`src/auth.c:92-99`). No
  character of the alphabet is lost by this (`Auth.AlphabetPasses`), but some characters outside it are
  taken for eight ones instead of being skipped; `Auth.Strays` says which.
- `freeze` leaves a vector of bytes if and only if the number was below 2^255 - 19; otherwise 256 stays in
  the top limb, and only the store of bytes drops it (`src/curve25519.c:92-105`,
  `src/curve25519.c:356-357`). `Curve25519.freeze` and `Curve25519.FrozenValue` state this,
  `Curve25519.NotCanonical` has such a vector.
- A REGISTER_SUPER_ACK is compared with the last cookie of the current supernode, which is 0 before any
  REGISTER_SUPER went to it, and a round whose name does not resolve sends none (`src/edge_utils.c:1860`;
  `maybe_supernode2sock` can only fail in builds without threads, `src/resolve.c:423`,
  `src/resolve.c:442`). That an accepted acknowledgement answers the REGISTER_SUPER sent since its
  supernode became current therefore holds if and only if a round since then has resolved, or it was
  switched to or asked for an address (`EdgeRuns.AnswersSince`); that it answers any, if and only if that
  was ever so (`EdgeRuns.AnswersExactly`). It always holds when all rounds resolve and the clock is past a
  tenth of the register interval, so that the first round is due (`EdgeRuns.AnswersWhenResolving`);
  `EdgeRuns.UnaskedAnswer` is a run in which it does not.

## Model

| member | source | states |
|---|---|---|
| Curve25519.add | src/curve25519.c:32-45 | the limbs hold the sum of two squeezed vectors, no carry lost, top limb bounded; out may be an operand |
| Curve25519.sub | src/curve25519.c:48-61 | the difference plus exactly 2p, so never negative, no borrow lost |
| Curve25519.storeTop | src/curve25519.c:43-44 | the carried limbs stand for the sum of the limb sums and the first carry |
| Curve25519.squeeze | src/curve25519.c:64-85 | for limbs up to 2^29: the same number with what is above bit 255 folded in times 19, low limbs at most 255, top limb at most 128 |
| Curve25519.foldTop | src/curve25519.c:75-84 | the end of both loops: what comes to the top limb is cut to 7 bits and its excess folded back |
| Curve25519.foldBack | src/curve25519.c:78-84 | the second carry loop: 19 times what lay above bit 255 comes in at the bottom |
| Curve25519.freeze | src/curve25519.c:88-105 | the low bytes of the result are the unique representative below 2^255-19; all limbs are bytes exactly when the number was below it |
| Curve25519.FrozenValue | src/curve25519.c:92-105 | bit 7 of the top limb of x + 19 + 2^255 tells whether x was below p, and either choice stores x mod p; 256 is left in the top limb exactly when x was not below p |
| Curve25519.NotCanonical | src/curve25519.c:92-105 | the vector for p itself is squeezed, and freeze leaves only 256 in its top limb |
| Curve25519.restore | src/curve25519.c:102-104 | the masked exclusive or keeps the vector or brings the copy back, whole |
| Curve25519.mult | src/curve25519.c:107-122 | product modulo p, squeezed, for operands as add and sub leave them; no 32-bit column sum wraps |
| Curve25519.multColumn | src/curve25519.c:114-118 | both inner loops give column i of the schoolbook product with 38-folding, at most 2^29 |
| Limbs.ColumnsValue | src/curve25519.c:107-122 | the folded columns stand for the product of the two numbers modulo p |
| Limbs.RotatedValue | src/curve25519.c:117-118 | moving a vector m limbs up with 38-folding multiplies it by 256^m modulo p |
| Curve25519.mult121665 | src/curve25519.c:125-146 | 121665 times the number, folded and squeezed |
| Curve25519.square | src/curve25519.c:149-169 | the same folded columns as mult(a, a), so the square modulo p, squeezed |
| Limbs.SquareColumn | src/curve25519.c:155-166 | half the off-centre terms doubled plus the centres are the whole column |
| Curve25519.SquareAgreesWithMult | src/curve25519.c:107-169 | the vectors that square(a) and mult(a, a) leave are equal limb for limb |
| Curve25519.crv_select | src/curve25519.c:172-185 | the mask arithmetic leaves r and s in p and q in order for b = 0 and exchanged for b = 1 |
| X25519.doubleAndAdd | src/curve25519.c:223-240 | the 14 vector operations of a turn compute the field-level double-and-add |
| X25519.turn | src/curve25519.c:219-242 | one turn with its two selects takes the vectors of ladder step t+1 to those of step t, for either bit |
| X25519.BitOfByte | src/curve25519.c:220-221 | e[pos / 8] >> (pos & 7) & 1 is bit pos of the little-endian scalar |
| X25519.climb | src/curve25519.c:219-242 | all 255 turns, bit 254 first: the field ladder of RFC 7748 |
| X25519.mainloop | src/curve25519.c:188-246 | x_2 and z_2 of the field ladder after the last swap, in squeezed vectors |
| X25519.recip | src/curve25519.c:249-332 | z to the power p - 2 = 2^255 - 21 for every z; out may be z |
| X25519.RecipExponent | src/curve25519.c:326-331 | the exponents of the addition chain end at 2^255 - 21 |
| X25519.curve25519 | src/curve25519.c:335-358 | for every n and p the bytes in q are X25519(decodeScalar(n), decodeUCoordinate(p)) of RFC 7748, which is x z^(p-2) of that multiple of the point; q may be n or p |
| Montgomery.Doubling | src/curve25519.c:223-237 | the coordinates of the point after a step are its double by the polynomials (x^2-z^2)^2 and 4xz(x^2+486662xz+z^2) |
| Montgomery.Adding | src/curve25519.c:223-240 | the other pair is the sum of the two points, whose difference has the coordinate u |
| Montgomery.StepClimbs | src/curve25519.c:219-242 | a step with bit b takes the multiples n and n+1 to 2n+b and 2n+b+1 |
| Montgomery.LadderMultiples | src/curve25519.c:219-242 | after the bits 254 to t the ladder holds the multiples by the number of these bits and by the next one |
| Montgomery.X25519IsMultiple | src/curve25519.c:335-358 | X25519(k, u) is x z^(p-2) of the multiple by k mod 2^255 |
| Montgomery.FirstMultiples | src/curve25519.c:200-217 | the multiple by 0 is (1, 0), and that by 1 has the coordinate u |
| CurveLaw.TangentLaw | src/curve25519.c:228-237 | the doubling formula is the tangent of v^2 = x^3 + 486662x^2 + x |
| CurveLaw.ChordLaw | src/curve25519.c:226-240 | for two points of the curve the addition formula is their chord, given the coordinate of their difference |
| CurveLaw.ChordsMultiply | src/curve25519.c:226-240 | on the curve the coordinates of sum and difference have the product (x1x2-1)^2 / (x1-x2)^2 |
| X25519.clamp | src/curve25519.c:341-345 | the copied scalar is decodeScalar25519 of n |
| X25519.mask | src/curve25519.c:347-349 | the copied point is p modulo 2^255 |
| X25519.multiply | src/curve25519.c:351-354 | ladder, inversion, product and freeze: the bytes of x_2 * z_2^(p-2) |
| X25519.ClampedBytes | src/curve25519.c:342-345 | the three masks on bytes are decodeScalar25519 on the number |
| X25519.CanonicalEncoding | src/curve25519.c:356-357 | 32 bytes encode a number in one way |
| Field25519.PowAdd | src/curve25519.c:249-332 | powers in the field add their exponents, which every step of the chain uses |
| UtHash.Table.constructor | include/uthash.h:426-445 | a null head is the empty table |
| UtHash.Table.find | include/uthash.h:183-203 | HASH_FIND returns what the plain map has under the key, null for other keys |
| UtHash.Table.findInBkt | include/uthash.h:857-876 | the element of the chain with this key and hash value, or null when the chain has none |
| UtHash.Table.add | include/uthash.h:426-450 | with a key that is not in use: element at the end of the insertion order, map extended, all HASH_FSCK facts kept; the buckets doubled exactly when the bucket is overfull, then with all statistics of an expansion, else with all statistics as before |
| UtHash.Table.makeTable | include/uthash.h:242-272 | 32 empty buckets, all counters zero |
| UtHash.Table.link | include/uthash.h:429-441 | handle filled in, end of the insertion order, table made when there was none, and the map extended |
| UtHash.append | include/uthash.h:308-314 | the element is linked behind the tail, and the list stays linked both ways |
| UtHash.Table.appendList | include/uthash.h:308-314 | next and prev stay mutually inverse, tail is the new element |
| UtHash.Table.addToTable | include/uthash.h:367-375 | num_items counts the elements again, each in the bucket of its hash value; doubling exactly on an overfull bucket |
| UtHash.push | include/uthash.h:879-887 | the element becomes the head of a chain that stays doubly linked and counted |
| UtHash.insert | include/uthash.h:879-887 | one bucket grows by one element at its head, the others are untouched |
| UtHash.HomeInRange | include/uthash.h:460-463 | hashv & (num_buckets - 1) is the remainder, hence a bucket, when num_buckets is a power of two |
| UtHash.Table.expandBuckets | include/uthash.h:945-995 | twice the buckets, log2 one up, every element in its new bucket, ideal_chain_maxlen the exact ceiling, each expand_mult in closed form by the length of its chain, nonideal_items, ineff_expands and noexpand as described |
| UtHash.rehashAll | include/uthash.h:960-980 | both loops: the old chains are walked while they are relinked, and the new array holds the same elements |
| UtHash.rehash | include/uthash.h:963-979 | one element moves: the counts of elements beyond the ideal length and expand_mult stay right |
| UtHash.ExactCeiling | include/uthash.h:926-943 | (n >> lb) + ((n & (b - 1)) ? 1 : 0) is n / b rounded up |
| UtHash.CeilDivBounds | include/uthash.h:926-943 | and that is the least q with n <= q * b |
| UtHash.ExpandMultValue | include/uthash.h:969-973 | expand_mult is 0 up to the ideal length, then the number of elements too many, but at most count / ideal rounded up |
| UtHash.Table.OverfullMeans | include/uthash.h:889-890 | a bucket is expanded when its chain comes to ten times expand_mult + 1 and expansion is not inhibited |
| UtHash.Table.MultsGrown | include/uthash.h:960-973 | after an expansion each expand_mult is that number for the chain of its bucket |
| UtHash.Table.delete | include/uthash.h:480-507 | the element leaves list, bucket and map and everything else stays, the statistics too; the last element leaves the empty table |
| UtHash.Table.remove | include/uthash.h:480-507 | with other elements left: list, bucket, map and count without the element, all expand_mult as before |
| UtHash.unlink | include/uthash.h:901-913 | the chain without its k-th element, still doubly linked and counted |
| UtHash.unlist | include/uthash.h:489-500 | the insertion order without its k-th element, head and tail moved when they have to |
| UtHash.extract | include/uthash.h:501-503 | one bucket loses the element, the others are untouched |
| UtHash.Table.Counts | include/uthash.h:545-592 | the bucket counts add up to num_items, and so do the chains and the insertion order |
| MergeSort.SortPermutes | include/uthash.h:1002-1084 | the passes of HASH_SRT keep the multiset of elements |
| MergeSort.PassRuns | include/uthash.h:1011-1074 | a pass doubles the length of the sorted runs |
| MergeSort.SortSorts | include/uthash.h:1002-1084 | for a comparison that orders the elements the result is sorted |
| MergeSort.SortStable | include/uthash.h:1002-1084 | elements that tie keep their order |
| MergeSort.StableSort | include/uthash.h:1002-1084 | HASH_SRT as a whole: always a permutation, and a stable sort for every comparison that orders the elements |
| HashSort.weave | include/uthash.h:1058-1068 | the next element goes to the end of a list that stays linked both ways |
| HashSort.mergeRuns | include/uthash.h:1028-1069 | the loop over two runs appends their merge, ties from the first run first |
| HashSort.advance | include/uthash.h:1018-1027 | the second run starts insize elements on, or is empty |
| HashSort.pass | include/uthash.h:1012-1074 | one pass over the list in place is a pass over its sequence, and counts its merges |
| HashSort.sort | include/uthash.h:1002-1084 | HASH_SRT ends on any list, leaves the stable sort linked both ways with head and tail right, and leaves buckets, keys and counts alone |
| AesSpec.SBox | src/aes.c:777-810 | the table is the S-box of FIPS 197, section 5.1.1: the affine map of the inverse in the field of 256 elements |
| AesSpec.InvSubSub | src/aes.c:957-990 | the inverse table undoes the S-box |
| AesSpec.SubInvSub | src/aes.c:957-990 | and the S-box undoes the inverse table |
| Aes.EncryptionTables | src/aes.c:632-810 | Te0 to Te3 hold the S-box times the columns of the MixColumns matrix, Te4 the S-box in every byte |
| Aes.DecryptionTables | src/aes.c:812-990 | Td0 to Td3 hold the inverse S-box times the columns of the InvMixColumns matrix |
| Aes.EncColumn | src/aes.c:1132-1136 | a line of AES_ENC_ROUND is a column of SubBytes, ShiftRows, MixColumns and AddRoundKey |
| Aes.DecColumn | src/aes.c:1181-1185 | a line of AES_DEC_ROUND is a column of the inverse round |
| Aes.encRound | src/aes.c:1132-1136 | AES_ENC_ROUND is a round of the cipher, sections 5.1.1 to 5.1.4 |
| Aes.decRound | src/aes.c:1181-1185 | AES_DEC_ROUND is a round of the equivalent inverse cipher |
| Aes.LastRound | src/aes.c:1168-1177 | the masked table look-ups are the last round, without MixColumns |
| Aes.InvLastRound | src/aes.c:1217-1226 | the same for decryption |
| Aes.internalEncrypt | src/aes.c:1139-1178 | for 10, 12 and 14 rounds and any round keys the 16 bytes are Cipher of section 5.1; in place too |
| Aes.internalDecrypt | src/aes.c:1188-1227 | the 16 bytes are EqInvCipher of section 5.3.5; in place too |
| Aes.getU32 | src/aes.c:1000 | four bytes as a column, first byte on top |
| Aes.putU32 | src/aes.c:1001 | a column as four bytes, nothing else written |
| AesSpec.InvMixMix | src/aes.c:1099 | InvMixColumns undoes MixColumns |
| AesSpec.InvMixAdd | src/aes.c:1099 | InvMixColumns goes through the addition of round keys |
| AesSpec.InvRoundsUndo | src/aes.c:1139-1227 | after i rounds the inverse cipher is where the cipher was before its last i + 1 rounds |
| AesSpec.InverseCipher | src/aes.c:1104-1227 | with reversed and InvMixColumns-transformed round keys decryption undoes encryption, any keys, any block |
| AesKeys.RconTable | src/aes.c:992-997 | rcon holds the powers of x |
| AesKeys.TableForms | src/aes.c:1028-1034 | the masked look-ups are SubWord of RotWord, and SubWord |
| AesKeys.ScheduleLaw | src/aes.c:1016-1096 | word by word and byte by byte, what each word beyond the key is made of, the S-box in the middle of a 256-bit round included |
| AesKeys.keySetupEnc | src/aes.c:1016-1096 | for keys of 128, 192 and 256 bits: the number of rounds and, word for word, KeyExpansion of section 5.2 |
| AesVector.CipherVector | src/aes.c:1016-1178 | the example of FIPS 197, appendix C.1, key schedule and cipher together |
| AesKeys.setup128 | src/aes.c:1025-1042 | the loop for 128 bits fills 44 words |
| AesKeys.setup192 | src/aes.c:1045-1064 | the loop for 192 bits fills 52 words |
| AesKeys.setup256 | src/aes.c:1067-1092 | the loop for 256 bits, with the SubWord in the middle of a round, fills 60 words |
| AesKeys.InvMixWordMixes | src/aes.c:1099 | INVMIXCOLRK is InvMixColumn on a word |
| AesKeys.swapKeys | src/aes.c:1112-1117 | four exchanges: two round keys change places, no other word changes |
| AesKeys.KeysSwapped | src/aes.c:1112-1117 | which on round keys is an exchange |
| AesKeys.reverseKeys | src/aes.c:1111-1117 | the first loop leaves the round keys in the opposite order |
| AesKeys.mixKeys | src/aes.c:1120-1126 | the second loop applies InvMixColumns to all round keys but the first and the last |
| AesKeys.keySetupDec | src/aes.c:1104-1129 | the two loops leave the round keys of the equivalent inverse cipher for the same key |
| AesKeys.aesInit | src/aes.c:1296-1323 | -1 exactly for a wrong key size; else both schedules of one key, fit for InverseCipher |
| Cbc.cbcEncrypt | src/aes.c:1254-1271 | whole blocks are the CBC encryption of section 6.2 of NIST SP 800-38A, the rest of out is untouched; in place too |
| Cbc.cbcDecrypt | src/aes.c:1274-1293 | whole blocks are the CBC decryption; in place too |
| Cbc.fixXor | src/aes.c:1250-1251 | the block is the sum of the two, the bytes around it stay |
| Cbc.ProgressStep | src/aes.c:1283-1290 | writing a block, in place or not, leaves the blocks still to be read alone |
| Cbc.cbcDecryptRails | src/aes.c:438-586 | the loop over four rails, the step with two and the last block give, for any block function, the same blocks as one at a time |
| Cbc.RoundTrip | src/aes.c:1254-1293 | CBC decryption undoes CBC encryption for any inverse pair of block functions and any number of blocks |
| Cbc.CbcRoundTrip | src/aes.c:1254-1323 | with the two schedules of one key aes_cbc_decrypt recovers what aes_cbc_encrypt encrypted |
| ChaCha.halfRound | src/cc20.c:275-279 | two of the four lines: the new words, and no other word changed |
| ChaCha.quarterRound | src/cc20.c:275-279 | in place, the quarter round of section 2.1 of RFC 8439 on four words of the state |
| ChaCha.doubleRound | src/cc20.c:281-291 | the inner block of section 2.3: four column and four diagonal rounds |
| ChaCha.blockNext | src/cc20.c:294-346 | the key stream is the block function of the state, and only the counter is bumped, as a 32-bit word |
| ChaCha.initBlock | src/cc20.c:263-270 | constants, key, counter and nonce as in section 2.3 |
| ChaCha.crypt | src/cc20.c:355-400 | for every length each byte is xored with its key stream byte, bytes after the length are untouched; in place too, and the output may be where the nonce or the key is |
| ChaCha.xorWord | src/cc20.c:368-383 | four bytes of output are four of input and four of the key block |
| ChaCha.xorByte | src/cc20.c:388-396 | a byte of the tail, from the front or from the back |
| ChaCha.ShufflesRotate | src/cc20.c:109-121 | the byte shuffles of SSSE3 are rotations by 8 and 16 |
| ChaCha.ColumnsAreOddRound | src/cc20.c:134-139 | the row form of the odd round is four column quarter rounds |
| ChaCha.DiagonalsAreEvenRound | src/cc20.c:124-144 | shuffling the rows, an odd round and shuffling back are the four diagonal quarter rounds |
| ChaCha.InnerBlockIsDoubleRound | src/cc20.c:146-148 | a double round on four registers is the inner block |
| ChaCha.twoBlocks | src/cc20.c:170-189 | two blocks in parallel, the second with ONE added before and after, are two consecutive key blocks |
| ChaCha.storeXorRows | src/cc20.c:150-153 | STOREXOR of the four rows writes the 64 bytes of a block |
| ChaCha.cryptSse2 | src/cc20.c:156-254 | the contract of ChaCha.crypt, word for word: the 128, 64 and tail split gives the same bytes |
| ChaChaSpec.CryptTwice | src/cc20.c:156-400 | applying cc20_crypt twice is the identity |
| ChaChaSpec.OnlyCounter | src/cc20.c:345 | from block to block only word 12 of the state changes, by one each time |
| ChaChaSpec.RolRotates | src/cc20.c:273-279 | the rotations by 16, 12, 8 and 7 bring the bits that leave at the top in at the bottom |
| ChaChaSpec.XorIsExclusive | src/cc20.c:275-279 | the sum of words and of bytes has the bits of exactly one of the two |
| ChaChaVector.QuarterVector | src/cc20.c:275-279 | the quarter round vector of section 2.1.1 of RFC 8439 |
| ChaChaVector.StreamVector | src/cc20.c:294-400 | the key stream of the zero key and nonce, appendix A.1 of RFC 8439 |
| HeaderEncryption.packetHeaderEncrypt | src/header_encryption.c:96-136 | -1 and nothing changed below 24 bytes; else the sealed packet, byte by byte |
| HeaderEncryption.sealPacket | src/header_encryption.c:113-133 | the steps on overlapping words of the packet give the encrypted IV, the encrypted magic and length, the displaced bytes and the header |
| HeaderEncryption.packetHeaderDecrypt | src/header_encryption.c:40-93 | 0 and nothing changed for an announced length beyond the packet; else the packet restored, 1 exactly when the checksum matches, and then the stamp; on 0 the stamp is as it came or still has the checksum in it |
| HeaderEncryption.XorShifted | src/header_encryption.c:84 | stamp ^ (checksum << 32) changes the high half only |
| HeaderEncryption.AnnouncedLength | src/header_encryption.c:46-57 | decrypting four bytes is enough to read the length that was sealed |
| HeaderEncryption.RestoredPacket | src/header_encryption.c:59-74 | every byte of the packet comes back |
| HeaderEncryption.StampRecovered | src/header_encryption.c:84 | the stamp is freed of the checksum |
| HeaderEncryption.RandomWord | src/header_encryption.c:124 | the last word of the IV before its encryption is the random word |
| HeaderEncryption.IvsDiffer | src/header_encryption.c:113-127 | packets with different random words get different IVs |
| HeaderEncryption.MagicBytes | src/header_encryption.c:103-130 | the encrypted header starts with "n2" and the header length, big-endian |
| HeaderEncryption.XorByteBits | src/header_encryption.c:133 | the key stream is added bit by bit |
| HeaderEncryption.RoundTrip | src/header_encryption.c:40-136 | decryption undoes encryption: any packet with the community name in place, any header length from 20 to the packet length, any stamp and random word, any inverse pair, key stream and hash |
| HeaderEncryption.encryptDecrypt | src/header_encryption.c:40-136 | encrypting and then decrypting in place returns 1, leaves every byte as it was and gives the stamp |
| TimeStamp.Stamper.timeStamp | src/n2n.c:521-576 | the masks and negations give time, counter and flag joined by or, and previously_issued_time_stamp is the result |
| TimeStamp.lowMask | src/n2n.c:535-543 | negation and shifts give the mask of 12 or of 32 bits |
| TimeStamp.count | src/n2n.c:534-560 | the counter in its place and the new flag |
| TimeStamp.assemble | src/n2n.c:562-571 | time above the mask, counter and flag joined by or |
| TimeStamp.IssuedIsNext | src/n2n.c:569-571 | while the counter is not used up the parts do not overlap |
| TimeStamp.Step | src/n2n.c:521-576 | one call: the stamp belongs to its reading, the flag stays, and the stamp is greater unless the flag is set just now |
| TimeStamp.FlagStays | src/n2n.c:559-560 | in every run the counter-only flag stays once it is set |
| TimeStamp.StampsRise | src/n2n.c:521-576 | with a clock that does not run backwards and at most 2^28 stamps a second, stamps rise at every call but the one that sets the flag |
| TimeStamp.StampsDiffer | src/n2n.c:521-576 | in such a run no stamp is issued twice |
| TimeStamp.ShowsReading | src/n2n.c:530-571 | a stamp without the flag is its seconds and microseconds above the counter |
| TimeStamp.FlagExactly | src/n2n.c:550-560 | in a run the flag is set once a reading was seen 257 times in a row, and only then |
| TimeStamp.StampExactly | src/n2n.c:521-576 | every stamp of a run: reading and number of repeats, or, once the flag is set, the second of the reading and the flag |
| Bits.Bitwise | src/n2n.c:534-571 | exclusive or, and, and or on numbers are these operations on each bit |
| TimeStamp.CountsUp | src/n2n.c:545-571 | in a second that begins with the flag set, stamp number k has the counter k - 1, up to 2^28 |
| TimeStamp.Overflow | src/n2n.c:550-571 | the next one is the first stamp again in an odd second, the first of the next second in an even one, where the one after it is the first again |
| TimeStamp.UsedUpRepeats | src/n2n.c:521-576 | the stamps of such a second are pairwise different if and only if there are at most 2^28 of them, or one more in an even second |
| TimeStamp.SecondBegins | src/n2n.c:534-560 | every later second of a run that has set its flag begins like that |
| TimeStamp.RepeatReached | src/n2n.c:521-576 | a clock on which the first stamp of a second comes again |
| Auth.AlphabetPasses | src/auth.c:92-98 | the test at a2b[ch] rejects no character of the alphabet |
| Auth.AlphabetReadsBack | src/auth.c:33-45 | a2b[b2a[s] - 0x20] is s for all 64 values |
| Auth.binToAscii | src/auth.c:48-74 | exactly ceil(8n / 6) characters, each for its six bits, and a closing zero |
| Auth.sextet | src/auth.c:60-67 | the two shifted bytes give the next six bits, for each of the four offsets |
| Auth.Strays | src/auth.c:92-99 | the characters outside the alphabet that pass the test |
| Auth.asciiToBin | src/auth.c:77-112 | for every text the bytes of the bits that its characters stand for, three for four characters; the rest of out untouched |
| Auth.takeChar | src/auth.c:90-101 | a character appends six bits to the 16-bit buffer, and the eight ones of a stray one also set the two bits before them |
| Auth.ByteOut | src/auth.c:87-108 | the byte shifted out of the 16-bit buffer is the one that the last two characters complete |
| Auth.SextetsOfText | src/auth.c:33-45 | the characters of an encoded text stand for the sextets that were encoded |
| Auth.RoundTrip | src/auth.c:48-112 | three bytes for four sextets give back exactly the n bytes that the sextets were cut from, for every n |
| Auth.TextRoundTrip | src/auth.c:48-112 | what ascii_to_bin makes of the text of bin_to_ascii are the bytes it was made of |
| EdgeSpec.StepKeeps | src/edge_utils.c:1584-1884 | every call and every packet keeps the invariant, in whatever order they come |
| EdgeSpec.DueMeans | src/edge_utils.c:1786-1791 | when a round is due, for each of the three values of sn_wait |
| EdgeSpec.FollowingPlace | apps/n3n-edge.c:1121-1124 | trying the next goes once round the list |
| EdgeSpec.UpdatedKeeps | src/edge_utils.c:1780-1884 | a round of update_supernode_reg keeps the invariant, for any order that sorting leaves |
| EdgeSpec.GivingUpKeeps | src/edge_utils.c:1803-1855 | so does giving a supernode up |
| EdgeSpec.SortedKeeps | src/edge_utils.c:1584-1634 | so does sort_supernodes |
| EdgeSpec.AcknowledgedKeeps | src/edge_utils.c:2769-2889 | so does a REGISTER_SUPER_ACK, with the entries that its sender and its payload move or add |
| EdgeSpec.EnteredKeeps | src/peer_info.c:266-315 | looking a supernode up by address loses no entry, adds only that one and none twice |
| EdgeRuns.EveryRun | src/edge_utils.c:1584-2883 | in every run from edge_init: curr_sn in the list, attempts and socket counter in range, last_sup set if and only if an acknowledgement was accepted with the device's address known, nothing to or from the TAP before that, each accepted one awaited and with the cookie last sent |
| EdgeRuns.FirstSweep | apps/n3n-edge.c:1180-1181 | after the start the first sweep is made when more than six seconds have passed |
| EdgeRuns.LastCookieSent | src/edge_utils.c:1515-1517 | last_cookie is the one of the last REGISTER_SUPER exactly when one was sent |
| EdgeRuns.AnswersTheLast | src/edge_utils.c:2804-2807 | an accepted acknowledgement answers the last REGISTER_SUPER to its supernode if and only if one was sent to it |
| EdgeRuns.AnswersExactly | src/edge_utils.c:1860-1870 | and one was sent if and only if a due round with that supernode current has resolved its name, or it was switched to, or asked for an address |
| EdgeRuns.StepLinked | apps/n3n-edge.c:1020-1184 | in the order of the start and of run_edge_loop each step keeps what the phase says about the current supernode and the last REGISTER_SUPER |
| EdgeRuns.AnswersSince | apps/n3n-edge.c:1020-1184 | when an acknowledgement is taken, it answers the REGISTER_SUPER sent since its supernode became current if and only if a round since then has resolved, or it was switched to or asked |
| EdgeRuns.AnswersWhenResolving | src/edge_utils.c:3231-3259 | in a run whose rounds all resolve, on a clock past a tenth of the register interval, every acknowledgement that is taken answers the REGISTER_SUPER sent last, to the supernode that is current since |
| EdgeRuns.UnaskedAnswer | src/edge_utils.c:1860-1870 | a run of the program in which one with cookie 0 is taken although nothing was sent: its only round has not resolved |
| EdgeRuns.OneRound | src/edge_utils.c:1803-1858 | one due round: an attempt less, or the supernode given up and all attempts again |
| EdgeRuns.OtherStep | src/edge_utils.c:1584-2883 | any other step that takes no acknowledgement and does not switch leaves attempts and losses alone |
| EdgeRuns.GivenUpRegularly | src/edge_utils.c:1780-1884 | in every run without an accepted acknowledgement and without a switch, whatever comes between the rounds, the supernode is given up exactly once every (reset value + 1) due rounds, and the attempts left are known |
| Edge.RuntimeData.constructor | src/edge_utils.c:685-690 | the initial state, for a list with a supernode |
| Edge.RuntimeData.updateSupernodeReg | src/edge_utils.c:1780-1884 | nothing unless the round is due, without waiting exactly after the interval; then the attempt is counted or the first of the list becomes current, the request is the last one sent if the name resolves, last_register_req is the time less the random offset, and the next ordinary round is at least a quarter of the interval away; the new state is the step of EdgeSpec |
| Edge.RuntimeData.giveUp | src/edge_utils.c:1803-1855 | the first of the sorted list becomes current with attempts left, one more loss, and the socket counter goes on modulo its maximum exactly with a bound address and no external peer |
| Edge.RuntimeData.sortSupernodes | src/edge_utils.c:1584-1634 | after a sweep the first entry is current; it is registered with exactly if it was not before, and the order changes only while nothing is awaited; the step of EdgeSpec |
| Edge.RuntimeData.registerSuperAck | src/edge_utils.c:2769-2889 | the waiting ends if and only if the acknowledgement is genuine and has the cookie last sent to the current supernode; else nothing changes; attempts are full again, last_sup is set only with the device's address, and the list has the old entries and those of the payload |
| Edge.RuntimeData.addSn | src/peer_info.c:266-315 | no entry is lost or doubled, one that is new or gets another MAC address comes last |
| Edge.RuntimeData.addPayload | src/edge_utils.c:2836-2860 | the loop over the payload: the list has the old entries and those of the payload, none twice |
| Edge.RuntimeData.pong | src/edge_utils.c:2982-2986 | a PONG keeps the members of the list and the invariant |
| Edge.RuntimeData.resolved | src/resolve.c:539-562 | a resolved name adds its entry or clears its MAC address, and keeps the invariant |
| Edge.RuntimeData.rehash | src/edge_utils.c:2826-2830 | the members of the list stay; the current one comes last if its address was not known, and is known now |
| Edge.RuntimeData.packet | src/edge_utils.c:2638-2642 | delivered if and only if an acknowledgement was accepted with the device's address known; from a supernode it renews last_sup |
| Edge.RuntimeData.readFromTap | src/edge_utils.c:2459-2463 | forwarded under the same condition |
| Edge.RuntimeData.reRegisterSuper | src/edge_utils.c:3052-3061 | with a shared secret the next round is due at any time, else nothing changes |
| Edge.RuntimeData.readError | src/edge_utils.c:3139-3154 | after a failed read the next round is due after a tenth of the interval |
| Edge.sendPings | src/edge_utils.c:1454-1483 | exactly min(N, P) distinct supernodes, always the first min(N, floor(P/2)), the others after the gap, for any gap within 0..N-P |
| Mainloop.Tables.constructor | src/mainloop.c:207-264 | all slots and connections free |
| Mainloop.Tables.connlistAlloc | src/mainloop.c:226-240 | -1 exactly when every connection is taken, else the first that is free from where the search starts |
| Mainloop.Tables.connlistFree | src/mainloop.c:242-252 | that connection is free, the others are untouched; nothing happens above MAX_CONN |
| Mainloop.Tables.fdlistAllocslot | src/mainloop.c:266-297 | -1 exactly when every slot is taken; else a free slot is filled, for TCP with a connection of its own for packets with a length; ownership kept |
| Mainloop.Tables.takeSlot | src/mainloop.c:269-284 | the slot is filled and, for TCP, owns a connection that was free and is for packets with a length |
| Mainloop.Tables.fdlistFreefd | src/mainloop.c:299-323 | the first slot with the descriptor and its connection are free, nothing else changes; ownership kept |
| Mainloop.Tables.acceptHttp | src/mainloop.c:379-410 | served exactly when a slot and a connection are free, as an HTTP socket with a connection for HTTP text; otherwise both tables are as before; ownership kept |
| Mainloop.Tables.serveClient | src/mainloop.c:396-407 | the slot gets a connection for HTTP text exactly when one is free |
| Mainloop.Attached | src/mainloop.c:274-281 | giving a free connection to a slot without one keeps: each connection in use has exactly one owner, each owned one is in use |
| Mainloop.Detached | src/mainloop.c:311-314 | and so does giving it back |
| Mainloop.EveryPlace | src/mainloop.c:226-239 | a circular search over n entries looks at every entry |

## Left out

- X25519.mainloop: the arrays of 64 and 96 words of the C code are separate arrays of 32 words, and crv_select is called once for each half; masks and shifts by constants are written as remainders and divisions.
- X25519.curve25519: the multiple is by tangent and chord in the coordinate x alone; that these form a group, that p is prime, so that z^(p-2) is 1 / z, and that two parties agree is not proved.
- UtHash.Table.add: requires a key that is not in the table, as the macro leaves this to its caller; the in-order insertion, replacing, Bloom filter, HASH_SELECT and out-of-memory paths are not modelled, and the hash function is a parameter.
- UtHash.Table.expandBuckets: the bucket array is a value in a field, not memory of its own; `unsigned` counters do not wrap; element and handle are one object.
- HashSort.sort: the whole list only, not the call on the tail of a list at start-up; `unsigned` run lengths do not wrap.
- Aes.internalEncrypt: the lookup tables are functions with the entries of the source; words are read and written big-endian, as GETU32 and PUTU32 do on any host.
- AesKeys.keySetupEnc: only the three key sizes that aes_init lets through.
- Cbc.cbcDecryptRails: the AES-NI block function is a parameter; the AES-NI key schedule and the OpenSSL versions are not modelled.
- Cbc.fixXor: byte by byte, where the code takes four 32-bit words.
- ChaCha.crypt: a little-endian machine; the words that the C code copies with memcpy are native words.
- HeaderEncryption.packetHeaderDecrypt: an announced header length below 16 is excluded, since header_len - 16 wraps there to nearly 2^32 and the key stream would run past the packet; block cipher, key stream and hash are parameters, speck and pearson hashing are not part of this model.
- HeaderEncryption.packetHeaderEncrypt: header lengths below 16 are excluded for the same reason, as are those beyond the packet; the code leaves the length to its caller.
- Auth.asciiToBin: the length that strlen finds is a parameter.
- Edge.RuntimeData.registerSuperAck: decoding, time stamp verification, the hash and authentication checks are one yes or no; that an address or a MAC address of the payload is one of the list is a parameter.
- Edge.RuntimeData.updateSupernodeReg: the selection criterion is not modelled, so any order may come out of sorting; a register interval too short for the random offset is excluded; gratuitous ARP, multicast and local registration are left out.
- EdgeRuns.EveryRun: a supernode list that is never empty; later PONGs and the resolver are one event that may permute and extend the list and change the known MAC addresses in any way.
- EdgeRuns.AnswersSince: the time-outs of the start in apps/n3n-edge.c are not modelled, so the next supernode may be tried at any time while an address is awaited; the restart of the pings changes nothing here and is no step.
- Mainloop.Tables.connlistFree: requires a number other than MAX_CONN and not negative, for which the code would write outside the table.
- Edge.sendPings: supernodes are places in the list.
- Mainloop.Tables.fdlistAllocslot: requires a valid descriptor and, for TCP, a free connection, which the code asserts; reading, writing, closing idle connections and select are not modelled.
- TimeStamp.Stamper.timeStamp: the clock is a parameter, with seconds that fit 32 bits.
- Wire encoding, peer tables, the resolver, supernode side, management, compression, TUN/TAP and configuration: not modelled.
