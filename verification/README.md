# Verified models of freecoin's core

This project models, in Dafny 4.11, the parts of freecoin on which its security rests, and proves what
they compute. `dafny verify dfyconfig.toml` checks all of it.

**The elliptic-curve engine** (`lib/src/ecdsa.c`), for secp256r1, the curve chosen in
`lib/include/secrets.h`, with 32-bit and with 64-bit words. Four layers, each resting on the contracts of
the one below:

* *Words* (`Words`, `Mult`, `Modular`, `ModInv`, `Bytes`). Arrays of `w`-bit words updated in place, for
  every width `w` and every length; their meaning is the natural number `Val`. Addition, comparison,
  Comba multiplication, the two-buffer reduction, the binary inversion, the byte conversions.
* *Field* (`P256`, `Field`). The fast reduction modulo p of every 512-bit product, in its 32-bit and its
  64-bit form; Euclid's lemma, Fermat's little theorem, inverses and square roots modulo a prime.
* *Points* (`Curve`, `CoZ`, `Points`, `Ladder`, `OrderChain`, `Shamir`). The affine group law; co-Z addition,
  conjugate addition and Jacobian doubling as field identities and as methods on arrays; the Montgomery ladder
  with its recovery of 1/Z; the multiples of the generator up to its order; the joint double-and-add loop of
  verification.
* *Keys and signatures* (`Keys`, `Compress`, `Digest`, `Sign`, `Verify`, `Refused`). Scalar regularisation,
  public keys, point validation and compression, `bits2int`, signing, verifying, and the signatures that are
  made but refused.

**SHA-256** (`Sha256`, `Sha256Known`): the streaming context against the one-shot definition of FIPS 180-4, and
that definition against the roots its constants come from and a published digest.
**Merkle roots** (`Merkle`): the in-place fold that swaps hash buffers with a spare one.
**Head pruning** (`Chain`): the ancestor walks of `chain_clean` and `enchain_block`.
**Message queue** (`MsgQueue`, `QueueRuns`): the linked list with two sentinels, and every interleaving of
its users. **Base64** (`Base64`): encoder and decoder against RFC 4648.

## Hypotheses

Three mathematical facts about secp256r1 are hypotheses, never proved here: p is prime, the order n is
prime, and the group law is associative on the curve (`Curve.IsGroup` and `IsPrime(OrderN())`, together
`Keys.CurveFacts`). They appear as preconditions of the members that use them. One statement about
decompression also assumes that n times every point of the curve is infinite (`Curve.KilledBy`), as it is in a
group of n elements. Everything else about the curve is proved from them: closure, commutativity, inverses,
that n * G is infinite (`OrderChain.OrderKillsG`, a chain of 292 doublings and additions written out in
numbers), the order of every multiple and that no multiple has y = 0.

## What turned out not to hold everywhere

The code is modelled as it is; where a natural claim fails, the exact condition is proved.

* The ladder does not compute k * G for every k. Its two points meet when a prefix m of the regularised
  scalar has 2m + 1 divisible by n; then all coordinates collapse and the result is (0, 0).
  `Ladder.LadderTheorem` is that equivalence (with x(P) = 0 as the other failing case) and
  `Keys.NeverMeetsRegular` shows that the scalars concerned are exactly k = 1, n - 2 and n - 1. So
  `ecdsa_compute_public_key` refuses those three keys, and `ecdsa_sign_with_k` those three nonces.
* A signature is not always accepted by its own verifier. r is not reduced modulo n and s = 0 is not
  rejected by the signer, and an addition in the verifier's loop may meet two points with the same x, after
  which Z stays 0. `Verify.SignThenVerify` is the equivalence. `Refused.ZeroSignature` gives, for every key
  and every nonce that signs, the digest integer with s = 0; `Refused.DegenerateSignature` gives, for every
  private key d with 1 < d < n - 2, a nonce and a digest integer whose run is degenerate; and
  `Refused.RefusedSignature` is one such signature in numbers, for d = 2 and the nonce 4. Whether some nonce
  gives an r of n or more is not decided here.
* For the private keys 1 and n - 1, which `ecdsa_compute_public_key` refuses but the signer accepts, the table
  entry G + Q is (0, 0) (`Shamir.SumOfSameX`). What the verifier then answers is still given exactly by the
  affine formulas (`Verify.VerifyTheorem`); in the group's terms it answers as for other keys when the two
  scalars share no bit position, and refuses when they share the top one.
* `ecdsa_verify` does not check that the public key is on the curve, or that its coordinates are below p. They
  are read modulo p (`Verify.UnreducedKey`), and `Verify.AnyKeyTheorem` says what is accepted for any 64 bytes.
* `bits2int` leaves the integer unreduced, possibly above n, unless it had to shift bits out:
  `Digest.DigestLaw`. Signing and verifying are proved for such integers as well.
* Two heads with the same stored hash delete each other: `Chain.ReachabilityKept` gives the exact condition
  under which every block stays reachable.
* With an enqueuer and two dequeuers the head sentinel can be taken for a message, because the length is
  tested outside the lock. `QueueRuns.SentinelSafe`: over all schedules this never happens exactly when at
  most one thread dequeues, or none enqueues.
* A Merkle root does not determine the number of leaves: an odd list of three or more leaves has the root of
  the list with its last leaf doubled (`Merkle.DoubledLastLeaf`). For trees of one height, without colliding
  pairs among those the two trees hash, roots are equal exactly when doubling the last node of every odd
  level gives equal trees (`Merkle.EqualRoots`, and `Merkle.EqualRootsAnyHeight` for two heights); lists of
  one length are then equal (`Merkle.RootInjective`).

## Model

| member | source | states |
|---|---|---|
| Words.VliAdd | lib/src/ecdsa.c:500-514 | value of result plus carry times Base^n is the sum of the operands, also in place |
| Words.VliSub | lib/src/ecdsa.c:519-533 | value of result minus borrow times Base^n is the difference of the operands, also in place |
| Words.VliCmp | lib/src/ecdsa.c:441-453 | the sign of the difference of the two values |
| Words.VliCmpBySub | lib/src/ecdsa.c:474-481 | the subtracting comparison gives the same sign |
| Words.VliEqual | lib/src/ecdsa.c:457-466 | true exactly when the two values are equal |
| Words.VliTestBit | lib/src/ecdsa.c:397-399 | bit k of the words is bit k of the value |
| Words.VliRshift1 | lib/src/ecdsa.c:485-495 | the value is halved, carries moving between words |
| Words.VliNumBits | lib/src/ecdsa.c:402-428 | the position of the highest set bit of the value |
| Words.ValInjective | lib/src/ecdsa.c:457-466 | equal values on equally many words come from equal words |
| Mult.MulAdd | lib/src/ecdsa.c:569-577 | the three-word accumulator grows by exactly a * b and never overflows while it fits |
| Mult.MulAddSplit | lib/src/ecdsa.c:544-568 | the portable 32x32-split form meets the same contract |
| Mult.OneColumn | lib/src/ecdsa.c:589-604 | one Comba column adds exactly its products within three words, stores the low word and carries the rest on |
| Mult.AllColumns | lib/src/ecdsa.c:581-610 | all columns together are the product of the two values |
| Mult.VliMult | lib/src/ecdsa.c:581-610 | value of result is the product, for every width and every length up to Base |
| Modular.VliModAdd | lib/src/ecdsa.c:705-715 | the sum, less the modulus once it reaches it, carries included and operands possibly unreduced |
| Modular.VliModSub | lib/src/ecdsa.c:719-730 | the difference, plus the modulus when it is negative |
| Modular.ShiftedModulus | lib/src/ecdsa.c:738-756 | the modulus moved up to fill twice its words, with its exact shift |
| Modular.MmodStep | lib/src/ecdsa.c:759-772 | each round keeps the live half congruent to the product and below twice the shifted modulus |
| Modular.VliMmod | lib/src/ecdsa.c:734-774 | result is product modulo mod, for every 2n-word product and every mod with non-zero top word |
| Modular.VliModMult | lib/src/ecdsa.c:777-785 | the product of the operands modulo mod, unreduced operands included |
| ModInv.VliModInvUpdate | lib/src/ecdsa.c:846-857 | the coefficient is halved modulo an odd mod, the carry of uv + mod put back on top |
| ModInv.InvSubtract | lib/src/ecdsa.c:885-901 | subtracting and halving keeps u * input = a and the common divisors |
| ModInv.InvHalveA | lib/src/ecdsa.c:879-884 | halving an even a keeps u * input = a and the common divisors |
| ModInv.DroppedCarries | lib/src/ecdsa.c:888-892 | u - v comes out below mod although the carry of u + mod and the borrow are discarded |
| ModInv.VliModInv | lib/src/ecdsa.c:861-904 | terminates; result * input = gcd(input, mod) modulo mod for odd mod > 1, and 0 for input 0 |
| P256.FoldCongruent | lib/src/ecdsa.c:1790-1886 | T + 2 S1 + 2 S2 + S3 + S4 - D1 - D2 - D3 - D4 is congruent to the product modulo p |
| P256.Correct | lib/src/ecdsa.c:1877-1885 | both correction loops terminate with a value below p, equal modulo p to words plus signed carry |
| P256.MmodFast32 | lib/src/ecdsa.c:1790-1886 | result is product modulo p for every 512-bit product, 32-bit words |
| P256.MmodFast64 | lib/src/ecdsa.c:1888-1961 | the repacked 64-bit form computes the same |
| P256.CurveConstants | lib/src/ecdsa.c:1643-1672 | G satisfies the curve equation; n < p < 2n and 2^256 < 2n |
| OrderChain.OrderKillsG | lib/src/ecdsa.c:1643-1672 | n * G is the point at infinity, given only that p is prime and the group law associative |
| Field.Fermat | lib/src/ecdsa.c:1026-1027 | a^(p-1) = 1 modulo every prime p that does not divide a |
| Field.OnlyTwoRoots | lib/src/ecdsa.c:2528-2530 | two square roots of one residue differ by sign at most |
| Points.FieldMultWords | lib/src/ecdsa.c:787-798 | the product modulo p, of operands that need not be reduced |
| Points.FieldInv | lib/src/ecdsa.c:861-904 | the inverse in the field, and 0 for 0 |
| Points.FieldHalve | lib/src/ecdsa.c:983-989 | exact halving modulo p, the carry of x + p put back on top |
| Curve.AddOnCurve | lib/src/ecdsa.c:2539-2560 | sums of points of the curve are points of the curve |
| Curve.TimesOpposite | lib/src/ecdsa.c:2278-2321 | j * P is minus k * P exactly when the order divides j + k |
| CoZ.CoZAddCorrect | lib/src/ecdsa.c:2209-2234 | over Z * (x2 - x1) the outputs are P and the chord sum P + Q, for every prime field |
| CoZ.CoZAddCCorrect | lib/src/ecdsa.c:2240-2275 | over Z * (x2 - x1) the outputs are P - Q and P + Q |
| CoZ.DoubleCorrect | lib/src/ecdsa.c:957-1002 | the output is the tangent sum 2P for a = -3, with Z3 = Y1 * Z1; for y = 0, where 2P is infinite, Z3 = 0 |
| CoZ.OppositePointsCollapse | lib/src/ecdsa.c:2240-2275 | opposite inputs give (0, 0) and a point of the cusp y^2 = x^3 |
| CoZ.CollapsedAddC | lib/src/ecdsa.c:2240-2275 | from such coordinates XYcZ_addC gives zero everywhere |
| CoZ.CollapsedAdd | lib/src/ecdsa.c:2209-2234 | XYcZ_add keeps such coordinates collapsed, (0, 0) second |
| Points.XYcZAdd | lib/src/ecdsa.c:2209-2234 | the in-place method computes the co-Z formula |
| Points.XYcZAddWords | lib/src/ecdsa.c:2209-2234 | so it does for a second point that is not reduced, while its differences to the first are below p |
| Points.XYcZAddC | lib/src/ecdsa.c:2240-2275 | the in-place method computes the conjugate formula |
| Points.DoubleInPlace | lib/src/ecdsa.c:957-1002 | the in-place method computes the doubling formula, and leaves Z = 0 alone |
| Points.DoubleWords | lib/src/ecdsa.c:957-1002 | so it does for unreduced x and y, while x + Z^2 is below 2p and Z is not 0 |
| Points.XYcZInitialDouble | lib/src/ecdsa.c:2182-2203 | P and 2P over one Z, from an optional initial Z |
| Ladder.LadderRound | lib/src/ecdsa.c:2297-2301 | a round keeps R0 = (s >> i) * P, R1 = R0 + P over one Z, or stays collapsed |
| Ladder.RecoverZ | lib/src/ecdsa.c:2306-2314 | xP, yP, X1 - X0 and Yb, Xb give exactly 1/Z |
| Ladder.EccPointMult | lib/src/ecdsa.c:2278-2321 | the method computes LadderResult of the scalar with its bit num_bits - 1 taken as 1 |
| Ladder.LadderTheorem | lib/src/ecdsa.c:2278-2321 | the result is s * P exactly when x(P) is not 0 and no prefix m of s has n dividing 2m + 1; else (0, 0) |
| Keys.RegularizeK | lib/src/ecdsa.c:2323-2334 | k0 and k1 are k + n and k + 2n modulo 2^bits, the returned carry is as coded; any k, also in place |
| Keys.RegularSelected | lib/src/ecdsa.c:2323-2348 | for k < n the choice p2[!carry] makes the ladder run over k + n or k + 2n |
| Keys.RegularScalar | lib/src/ecdsa.c:2323-2348 | that scalar is k modulo n and has exactly num_n_bits + 1 bits |
| Keys.NeverMeetsRegular | lib/src/ecdsa.c:2323-2348 | the ladder meets its own points exactly for k = 1, n - 2 and n - 1 |
| Keys.BaseMultTheorem | lib/src/ecdsa.c:2336-2354 | k * G for all other k in [1, n-1], never (0, 0); (0, 0) for those three |
| Keys.EcdsaComputePublicKey | lib/src/ecdsa.c:2577-2610 | writes d * G, or fails and writes nothing, exactly for d = 0, d >= n and those three d |
| Bytes.BytesToNative | lib/src/ecdsa.c:2385-2396 | the words hold the big-endian number of the bytes |
| Bytes.NativeToBytes | lib/src/ecdsa.c:2375-2383 | the bytes are the big-endian form of the value modulo 2^(8 * num_bytes), the rest of the array unchanged |
| Bytes.BigEndianInjective | lib/src/ecdsa.c:2375-2396 | strings of one length with one value are equal, so the two conversions are inverse |
| Bytes.BigEndianConcat | lib/src/ecdsa.c:2375-2396 | the most significant byte comes first: the number of s + t is that of s shifted by the bytes of t, plus that of t |
| Compress.XSide | lib/src/ecdsa.c:1005-1013 | x^3 - 3x + b modulo p, also for x not below p |
| Compress.ModSqrt | lib/src/ecdsa.c:1020-1036 | the bit loop computes a^((p+1)/4) |
| Compress.SqrtLaw | lib/src/ecdsa.c:1026-1027 | that power squares to a whenever a is a square, for every prime p = 3 mod 4 |
| Compress.ValidPoint | lib/src/ecdsa.c:2539-2560 | accepts exactly the affine points of the curve with reduced coordinates |
| Compress.EcdsaCompress | lib/src/ecdsa.c:2501-2511 | for every 64 bytes: byte 0 is 2 + y modulo 2, the other 32 bytes are those of x |
| Compress.EcdsaDecompress | lib/src/ecdsa.c:2513-2536 | for every 33-byte input, x unchanged and the y with the parity of the tag |
| Compress.CompressRoundTrip | lib/src/ecdsa.c:2501-2536 | decompress(compress(P)) = P for every point ecdsa_valid_point accepts, over every prime p = 3 mod 4 |
| Compress.CompressAndBack | lib/src/ecdsa.c:2501-2536 | the two methods in turn give every point of secp256r1 back, from the primality of p alone, through a tag of 2 for even y and 3 for odd y |
| Compress.DecompressAndValidate | lib/src/ecdsa.c:2513-2575 | decompression followed by validation, on secp256r1: valid exactly when x is below p and has a root, whatever the tag |
| Compress.DecompressedValid | lib/src/ecdsa.c:2513-2536 | over any prime p = 3 mod 4, which tags and x decompress to a point of the curve, in both directions; for a zero root and an odd tag y is p |
| Compress.NoZeroRoot | lib/src/ecdsa.c:2513-2536 | with an odd prime number of points the right-hand side is never zero, so that case does not arise |
| Digest.Bits2Int | lib/src/ecdsa.c:2615-2651 | the method leaves DigestInt in native, for every digest length and every order size |
| Digest.LeftmostLaw | lib/src/ecdsa.c:2615-2651 | the leftmost bits are the number of the whole digest, shifted right by its bits beyond num_n_bits |
| Digest.DigestLaw | lib/src/ecdsa.c:2615-2651 | it equals the leftmost bits modulo n, and is n or more exactly when no bits were shifted out and they are |
| Sign.InvertNonce | lib/src/ecdsa.c:2695-2697 | k becomes 1/k modulo n for every blinding factor |
| Sign.SignsUnique | lib/src/ecdsa.c:2695-2715 | the signing equation has one solution, so the blinding cannot matter |
| Sign.SignWithK | lib/src/ecdsa.c:2653-2725 | succeeds exactly when CanSign; then r = x(k * G), s < n and s * k = e + r * d modulo n |
| Sign.NoncesThatSign | lib/src/ecdsa.c:2653-2725 | CanSign is: k in [1, n-1] other than 1, n - 2 and n - 1, x(k * G) not 0, and the random number did not fail |
| Shamir.ShamirRound | lib/src/ecdsa.c:2959-2973 | an iteration keeps (u1 >> i) * G + (u2 >> i) * Q, or Z = 0 once an addition was degenerate |
| Shamir.LoopIsAffine | lib/src/ecdsa.c:2944-2976 | the loop with its own Z computes, for every table, what the chord and tangent formulas on affine points give, and 0 once they do not apply |
| Shamir.TableIsAffine | lib/src/ecdsa.c:2934-2942 | the third table entry is the chord sum of G and the key, and (0, 0) when they have one x |
| Shamir.ShamirTheorem | lib/src/ecdsa.c:2934-2976 | for every key d the loop gives the x of the affine run; that is the x of u1 * G + u2 * Q without degenerate additions, and 0 with one, for d = 1 and n - 1 when the scalars share no bit position |
| Shamir.SumOfSameX | lib/src/ecdsa.c:2934-2942 | for Q = G and Q = -G the table entry G + Q is (0, 0) |
| Shamir.OriginAtTop | lib/src/ecdsa.c:2944-2976 | a run that starts from that entry ends with x = 0 |
| Verify.EcdsaVerify | lib/src/ecdsa.c:2875-2985 | the method decides Accepts for every 64-byte public key and signature and every digest length |
| Verify.UnreducedKey | lib/src/ecdsa.c:2875-2985 | a public key with coordinates of p or more is accepted or refused as its residues are |
| Verify.AnyKeyTheorem | lib/src/ecdsa.c:2875-2985 | for every 64-byte key, on the curve or not: accepts exactly when r, s are in [1, n-1] and the affine run ends with an x that is r modulo n |
| Verify.VerifyTheorem | lib/src/ecdsa.c:2875-2985 | for every key d * G the same, and: exactly when r, s are in [1, n-1], the run is clean and x(u1 * G + u2 * Q) mod n = r; for d = 1 and n - 1 so when the scalars share no bit position, and never when they share the top one |
| Verify.SignThenVerify | lib/src/ecdsa.c:2653-2725 | a made signature is accepted under d * G exactly when r < n, s is not 0 and the affine run gives r modulo n, which is: the run is clean; d = 1 and n - 1 as in VerifyTheorem |
| Verify.OrdinaryKeys | lib/src/ecdsa.c:2934-2942 | every d but 1 and n - 1 makes the whole table usable |
| Verify.OrdinarySignThenVerify | lib/src/ecdsa.c:2653-2725 | for 1 < d < n - 1: accepted exactly when r < n, s is not 0 and the run is clean |
| Verify.SignAndVerify | lib/src/ecdsa.c:2577-2985 | the three methods in turn on bytes: public key, signature, verdict, with the same condition |
| Refused.ZeroSignature | lib/src/ecdsa.c:2653-2725 | every key and every nonce that signs have a digest integer for which s = 0, and that signature is refused |
| Refused.DegenerateSignature | lib/src/ecdsa.c:2959-2973 | every key 1 < d < n - 2 has a digest integer and a nonce whose signature is refused, by a degenerate addition when r < n |
| Refused.RefusedSignature | lib/src/ecdsa.c:2959-2973 | the case d = 2, nonce 4, r = s = x(4 * G), with all numbers in range |
| Sha256.Transform | lib/src/sha256.c:30-70 | one block updates the state as FIPS 180-4 section 6.2.2 does; its functions and constants are fixed by the rows below |
| Sha256.ChChooses | lib/src/sha256.c:10-10 | CH takes the bits of y where x has ones and those of z where it has zeros |
| Sha256.MajDecides | lib/src/sha256.c:11-11 | MAJ agrees with x where x and y agree, and is z elsewhere |
| Sha256Known.ConstantsAreCubeRoots | lib/src/sha256.c:17-27 | the 64 constants are the first 32 bits of the fractions of the cube roots of the first 64 primes |
| Sha256Known.InitialHashIsSquareRoots | lib/src/sha256.c:72-85 | the initial hash is that of the square roots of the first 8 primes |
| Sha256Known.DigestOfAbc | lib/src/sha256.c:30-156 | the digest of "abc" is ba7816bf 8f01cfea 414140de 5dae2223 b00361a3 96177a9c b410ff61 f20015ad |
| Sha256.EP1 | lib/src/sha256.c:7-13 | the shift-and-or macro is the rotation function of section 4.1.2 |
| Sha256.Context.Update | lib/src/sha256.c:87-102 | appends the bytes to the message consumed, for every split of it |
| Sha256.Context.Final | lib/src/sha256.c:109-156 | the digest of all bytes consumed, in both padding branches |
| Sha256.ZeroCountLeast | lib/src/sha256.c:115-129 | the padding is the shortest that section 5.1.1 allows |
| Sha256.LengthField | lib/src/sha256.c:131-140 | the last eight bytes of the padding are the number of bits modulo 2^64, most significant byte first |
| Sha256.CountMore | lib/src/sha256.c:6-6 | the two-word counter adds modulo 2^64 |
| Merkle.LevelAt | lib/src/transactions.c:197-227 | digest k of the next level is the SHA-256 digest of digests 2k and 2k + 1 one after the other, or of the last one twice |
| Merkle.SmallTrees | lib/src/transactions.c:168-235 | the roots over one, two and three transactions, as nested digests |
| Merkle.ReduceLevel | lib/src/transactions.c:197-227 | one pass turns a level into the next one in place, losing no buffer |
| Merkle.ComputeMerkleRoot | lib/src/transactions.c:168-235 | the recursive root; everything acquired, the hash context and the serialisation buffer included, is freed exactly once |
| Merkle.RootInjective | lib/src/transactions.c:168-235 | equally many leaves with one root are equal, or a pair hashed in one tree collides with a pair hashed in the other |
| Merkle.EqualRoots | lib/src/transactions.c:168-235 | for two trees of one height without such a collision, roots are equal exactly when the level-wise doubled leaves are |
| Merkle.EqualRootsAnyHeight | lib/src/transactions.c:168-235 | for trees of two heights without such a collision, roots are equal exactly when the higher tree's nodes at the lower one's height expand alike |
| Merkle.DoubledLastLeaf | lib/src/transactions.c:214-225 | an odd list shares its root with the list whose last leaf is doubled |
| Chain.Store.Clean | lib/src/chain.c:62-93 | terminates; exactly the heads met on the walk of another head are deleted |
| Chain.Store.IsEnchained | lib/src/chain.c:25-39 | true exactly when the block is on the walk of a head |
| Chain.DeadIsBelowAnother | lib/src/chain.c:72-87 | with distinct heads these are the proper ancestors of other heads |
| Chain.Antichain | lib/src/chain.c:72-87 | no surviving head is an ancestor of another |
| Chain.ReachabilityKept | lib/src/chain.c:72-87 | every block stays reachable exactly when no uncovered stored hash is listed twice |
| Chain.NothingGained | lib/src/chain.c:72-87 | no block becomes reachable |
| MsgQueue.Queue.Enqueue | freecoind-old/src/msgqueue.c:17-36 | the message is last in the queue; links stay mutual inverses and length counts modulo 2^32 |
| MsgQueue.Queue.Dequeue | freecoind-old/src/msgqueue.c:37-58 | the oldest message is returned and removed, the rest is kept in order |
| MsgQueue.OldestFirst | freecoind-old/src/msgqueue.c:43-50 | the node before the tail sentinel is the oldest message |
| MsgQueue.Queue.PeekSize | freecoind-old/src/msgqueue.c:60-65 | the size of the oldest message, or 0; below 2^32 messages that is exactly when the queue is empty |
| QueueRuns.FirstInFirstOut | freecoind-old/src/msgqueue.c:17-58 | for any number of enqueuers, one dequeuer and every schedule: what the schedule began to enqueue is what was received, then what is queued, then the message of the thread still inside; no sentinel is removed |
| QueueRuns.EveryMessageSent | freecoind-old/src/msgqueue.c:17-36 | for every thread list and schedule: the messages linked, with the one of the thread inside, are those whose enqueuing the schedule began, in order |
| QueueRuns.EnqueueCompletes | freecoind-old/src/msgqueue.c:17-36 | four turns of an idle enqueuer with the mutex free link its message, count it and free the mutex |
| QueueRuns.DequeueCompletes | freecoind-old/src/msgqueue.c:37-58 | five turns of a waiting dequeuer with messages queued and the mutex free hand over the oldest, count it off and free the mutex |
| QueueRuns.TwoDequeuersRace | freecoind-old/src/msgqueue.c:39-54 | among any threads, an enqueuer and two dequeuers have a schedule that removes the head sentinel |
| QueueRuns.SentinelSafe | freecoind-old/src/msgqueue.c:17-58 | no schedule removes a sentinel exactly when at most one thread dequeues or none enqueues |
| QueueRuns.Perform | freecoind-old/src/msgqueue.c:17-58 | every step of every run is carried out by the pointer writes and length updates on the linked list, except unlinking from an empty list, where the write goes through a null pointer |
| Base64.CharsAreEncoding | lib/src/util.c:117-138 | the characters computed group by group are the encoding of RFC 4648 section 4 |
| Base64.AlphabetIs | lib/src/util.c:8-15 | the 64 characters are those of Table 1 of RFC 4648, in order |
| Base64.KnownShort | lib/src/util.c:117-138 | the encodings of "f", "fo" and "foo" of RFC 4648 section 10 |
| Base64.KnownLong | lib/src/util.c:117-138 | those of "foob", "fooba" and "foobar" |
| Base64.KnownSigns | lib/src/util.c:8-15 | three bytes each that encode as "++++" and as "////" |
| Base64.Base64Encode | lib/src/util.c:117-138 | writes the encoding that the rows above describe, and nothing else |
| Base64.UtilInit | lib/src/util.c:19-25 | the decoding table inverts the encoding table |
| Base64.Base64Decode | lib/src/util.c:140-164 | for every character string, the decoded bytes as far as they are wanted |
| Base64.RoundTrip | lib/src/util.c:108-164 | decoding the encoding, with the sizes the size functions give, restores exactly the input |
| Base64.EncodeAndDecode | lib/src/util.c:19-164 | the three methods in turn restore exactly the input |

## Left out

- Words: the C arrays are Dafny arrays of naturals below 2^w; or-ing and xor-ing words are functions on naturals, not bit-vectors.
- Mult.MulAddSplit: the split form is for an even number of bits, half words of any size; `muladd` with 128-bit integers and with 32x32 halves are both instances, but the assembly versions are not part of this model.
- Points: x and y of a point are two arrays rather than one array of twice the length, and curve constants are copied into fresh arrays; the overlap `point + num_words` is not modelled.
- Points.FieldHalve: `ModInv.VliModInvUpdate` is reused for the same statements written out in `double_jacobian_default`.
- Digest.Bits2Int: any order size; signing and verifying use it with 256 bits, where it never shifts.
- Sign.SignWithK: the random number is a parameter (absent, failing, or in [1, n-1]); `ecdsa_generate_random_int`, deterministic nonces and HMAC are not modelled, and neither is the retry loop of `ecdsa_sign`.
- Native little-endian mode, 8-bit words, the squaring function that is off by default, and the other curves (whose reductions, doubling and square roots differ).
- `ecdsa_shared_secret` and `ecdsa_make_key`: the same ladder and regularisation calls, with random input.
- Merkle.ComputeMerkleRoot: the bytes that `tx_serialize` leaves in the serialisation buffer are a parameter, for transactions that fit it; `tx_serialize` itself copies host structures and is not modelled.
- Sha256.Context.Update: for lengths below 2^32, beyond which the 32-bit loop counter does not terminate; `sha256_state` is empty in the source.
- Chain.Store.Clean: the block files are a map and the head files a set of hashes; the head functions of `io.c` are only declared there, so deleting is modelled as removing the hash. Appending to a head in `enchain_block` is not modelled.
- MsgQueue.Queue.Enqueue: the payload is a value copied into the node rather than a second allocation; freeing is leaving the list.
- QueueRuns.FirstInFirstOut: the pointer writes inside the lock are one step, the length update another; fairness and the sleeping wait are not modelled.
- QueueRuns.Perform: what follows the write through a null pointer is not modelled.
- Base64.Base64Encode: for sizes whose encoding is below 2^31 characters, where the int counters do not overflow.
- Base64.Base64Decode: at least one byte, since for none the code reads before the string; table entries that `util_init` does not set stay arbitrary naturals.
- `lib/src/bignum.c`, `lib/src/validation.c`, transaction and block serialisation, sockets, storage and key files.
