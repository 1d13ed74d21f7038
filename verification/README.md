# Verified models of the post-quantum core

The repository is firmware for a messenger on an ESP32: a Kyber (round 3) key
encapsulation on two cores, a task that serves sntrup761 requests, the Keccak
and AES code under Kyber, and a patched mbedTLS. This project models its core in Dafny
and proves what it promises.

- **Kyber arithmetic.** `Reduce`, `Zetas`, `PolyRing`, `NttSpec`, `RingQ` give the
  ring Z_q[X]/(X^256 + 1), the transform as layers of reductions, and the proof that
  it turns products into pairwise products; `ZetaPowers`, `NttLeaves` that it is the
  transform of FIPS 203. `InPlaceNtt`, `Poly`, `Polyvec` are the
  in-place loops of the program over `int16` arrays; every sum and product is shown
  to fit its C type except the wraps the two reductions intend.
- **Kyber encoding and sampling.** `Packing`, `PackingBits`, `Codec`, `Serialize`, `Message`,
  `Cbd`, `Sampling`, and `MatrixSampling`, where the matrix is sampled from SHAKE128.
- **Kyber schemes.** `Lattice` and `Indcpa` state what key generation, encryption and
  decryption compute and when decryption undoes encryption; `IndcpaRun` has the
  statements of the three algorithms; `DualCore`, `DualCoreResult`, `DualCoreCorrect`,
  `DualCoreKernels`, `DualCoreFootprint` the two-task versions over counting semaphores;
  `Kem`, `Kex` the Fujisaki-Okamoto transform and the key exchanges; `Kyber` puts the
  actual hash functions in, and `KyberStandard` states the result in numbers and bytes.
- **Keccak.** `Words`, `KeccakF`, `KeccakBits`, `Sponge`, `Fips202`: the unrolled
  permutation against the lanes and the bits of FIPS 202, the incremental against the one-shot interface, and both against the
  sponge of section 4 of that standard.
- **AES-256 in counter mode.** `AesField`, `Aes` state the cipher of FIPS 197;
  `AesBits`, `AesSbox`, `AesRounds`, `AesWords`, `AesKeys` prove the steps of the
  bitsliced code equal to its steps on four blocks at once, the S-box circuit included;
  `AesCt`, `AesSchedule`, `AesCtr` are the methods and the stream.
- **Certificate paths.** `X509Names`, `X509Parent`, `X509Chain`, `X509Verify`,
  `X509Flags`: the restartable path builder, the one path it builds, and what its verdict
  and each of its flags mean.
- **TLS sessions.** `TlsFormat`, `TlsSession`, `TlsWire`, `TlsLoad`, `TlsRoundTrip`: the
  session serializer with its size probing, its bytes, the loader, and what a saved session loads as.
- **Post-quantum task.** `PqTask`: a state machine over every interleaving of the
  worker, the threads that submit requests and the threads that take the precomputed
  key pair; `PqProgress`: what it gets done.

Code that works by changing things in place is a method over arrays or a class, with
its result given by a specification function; the properties are lemmas about those
functions or invariants of step relations. Protocols run over every schedule.
Constants are those of the source; `Q` is 3329, `R` is 2^16.

Where the code and its comments disagree the model follows the code: the tolerance
of `poly_tomsg` is one larger for zero bits than for one bits, and the path length
check of the certificate builder counts a self-issued child, which its comment says
it does not.

Some promises hold only under a condition, which is proved exact.
Dual-core encryption is safe on every run if and only if none of its three one-tick
waits can run out (`DualCore.EncSafeExactly`). The path length check agrees with RFC
5280 except in the case described by `X509Verify.PathlenIsStricter`, in which a list
that RFC 5280 accepts is refused (`X509Verify.SelfIssuedRefused`). A saved session
loads as itself if and only if it fits the format (`TlsRoundTrip.SaveThenLoad`). A
compressed round key expands to itself if and only if all four blocks carry the same
bits (`AesKeys.ExpandUndoesCompress`).

## Model

| member | source | states |
|---|---|---|
| `Reduce.MontgomeryReduce` | components/reduce/reduce.c:16-24 | for every argument in the documented range the result is congruent to a / 2^16 and lies strictly between -q and q; the two wraps are the intended ones |
| `Reduce.BarrettReduce` | components/reduce/reduce.c:35-42 | for every int16 the result is congruent to the argument and centred, in [-(q-1)/2, (q-1)/2] |
| `Zetas.ZSquare` | components/ntt/ntt.c:39-56 | table entries 2k and 2k+1 are the two square roots of entry k and of its negative, so every layer splits X^n - z into X^(n/2) - y and X^(n/2) + y |
| `Zetas.ZMirror` | components/ntt/ntt.c:39-56 | the entry the inverse transform reads at a node is minus the inverse of the entry the forward transform read there |
| `ZetaPowers.ZetaIsPower` | components/ntt/ntt.c:39-56 | table entry k is 2^16 times 17 to the power of the seven bits of k in reverse, modulo q |
| `PolyRing.MulIsSchoolbook` | components/ntt/ntt.c:106-127 | multiplication modulo X^n - z is the schoolbook sum with the wrapped terms multiplied by z |
| `PolyRing.FoldMul` | components/ntt/ntt.c:80-96 | reduction modulo X^n - y of a product modulo X^2n - y^2 is the product of the reductions |
| `NttSpec.LayersMul` | components/ntt/ntt.c:80-96 | any number of layers turns a product modulo X^n - z into the products modulo the leaves, pair by pair |
| `NttSpec.UnlayersOfLayers` | components/ntt/ntt.c:106-127 | e inverse layers undo e forward layers up to the factor 2^e |
| `NttSpec.LayersOfUnlayers` | components/ntt/ntt.c:106-127 | and the other way round |
| `RingQ.NttOfProduct` | components/ntt/ntt.c:80-146 | the transform of the product modulo X^256 + 1 is the pairwise product of the transforms |
| `RingQ.InverseOfNtt` | components/ntt/ntt.c:106-127 | the inverse transform undoes the transform: 1/128 clears the factors 2 of the seven layers |
| `RingQ.NttOfInverse` | components/ntt/ntt.c:106-127 | the transform undoes the inverse transform, so it is a bijection on residues |
| `RingQ.ProductThroughTransforms` | components/poly/poly.c:244-280 | ntt of both factors, base multiplication and invntt together give the schoolbook product modulo X^256 + 1, coefficient by coefficient, with no Montgomery factor left |
| `RingQ.NttThenInverse` | components/poly/poly.c:244-262 | poly_ntt and then poly_invntt_tomont multiply by 2^16 |
| `NttLeaves.LeafConstant` | components/ntt/ntt.c:80-96 | the constant of leaf i is 17^(2 BitRev7(i) + 1) |
| `NttLeaves.NttIsRemainder` | components/ntt/ntt.c:80-96 | coefficients 2i and 2i + 1 of the transform of every polynomial are its remainder modulo X^2 - 17^(2 BitRev7(i) + 1), as FIPS 203 defines the transform |
| `InPlaceNtt.FqMul` | components/ntt/ntt.c:68-70 | the product of a twiddle and any int16 never overflows the 32-bit argument and comes back as a*b / 2^16 |
| `InPlaceNtt.NttLayer` | components/ntt/ntt.c:83-94 | one pass over the array is one layer of the specification; each coefficient grows by at most q - 1 |
| `InPlaceNtt.Ntt` | components/ntt/ntt.c:80-96 | in place, no int16 overflow for inputs up to 9471, and the result has the residues of the seven-layer transform |
| `InPlaceNtt.InverseLayer` | components/ntt/ntt.c:111-121 | one pass of the inverse loop undoes one layer; outputs stay below q in absolute value |
| `InPlaceNtt.InvNtt` | components/ntt/ntt.c:106-127 | in place, no int16 overflow for inputs up to 16383, and the result is 2^16 times the inverse transform |
| `Poly.PolyReduce` | components/poly/poly.c:306-311 | every coefficient becomes the centred representative of its residue |
| `Poly.PolyAdd` | components/poly/poly.c:322-327 | coefficientwise int16 sum, with the arrays allowed to be the same |
| `Poly.PolySub` | components/poly/poly.c:338-343 | coefficientwise int16 difference, with the arrays allowed to be the same |
| `Poly.PolyToMont` | components/poly/poly.c:290-296 | every coefficient is multiplied by 2^16 modulo q |
| `Poly.PolyNtt` | components/poly/poly.c:244-248 | the transform with centred coefficients |
| `Poly.BaseMul` | components/ntt/ntt.c:139-146 | a product of two linear polynomials modulo X^2 - w, scaled by 2^-16 |
| `Poly.PolyBasemulMontgomery` | components/poly/poly.c:273-280 | the pairwise product of two transforms scaled by 2^-16, within 2q |
| `Poly.Multiply` | components/poly/poly.c:244-280 | in place on three arrays: transforming both factors, base multiplication and the inverse transform leave the schoolbook product modulo X^256 + 1, coefficient by coefficient, for every input within the range of the transform |
| `Poly.ThereAndBack` | components/poly/poly.c:244-262 | in place on one array: poly_ntt and then poly_invntt_tomont multiply by 2^16 modulo q |
| `Poly.CentreRes` | components/reduce/reduce.c:35-42 | the centred representative depends on the residue alone and keeps it |
| `Packing.UnpackPack` | components/poly/poly.c:18-100 | for 4, 5, 10, 11 and 12 bits unpacking what was packed gives back every sequence of values that fit |
| `Packing.PackUnpack` | components/polyvec/polyvec.c:15-115 | and packing what was unpacked gives back every sequence of bytes, so the formulas are bijections |
| `PackingBits.PackedBit` | components/poly/poly.c:18-60 | bit l of value i is bit d*i + l of the packed bytes, for d in {4, 5, 10, 11, 12} |
| `PackingBits.UnpackedBit` | components/polyvec/polyvec.c:76-115 | bit l of the unpacked value i is bit d*i + l of the bytes |
| `Codec.DecompressCompress` | components/poly/poly.c:18-100 | compressing a decompressed value gives it back, for d in {4, 5, 10, 11} |
| `Codec.CompressIsNearest` | components/poly/poly.c:18-60 | compression gives the integer nearest to x * 2^d / q, modulo 2^d; there are no ties |
| `Codec.DecompressIsNearest` | components/poly/poly.c:72-100 | decompression gives the integer nearest to y * q / 2^d, the upper one of two |
| `Codec.CompressError` | components/poly/poly.c:18-100 | decompressing a compressed coefficient is within round(q / 2^(d+1)) of it modulo q |
| `Codec.DecodeEncode` | components/poly/poly.c:111-147 | unpacking a packed polynomial gives every coefficient rounded (or, for 12 bits, exactly) |
| `Codec.EncodeDecode` | components/polyvec/polyvec.c:15-115 | packing an unpacked polynomial gives the bytes back when the fields are reachable |
| `Serialize.PackPoly` | components/poly/poly.c:18-60 | the loop over blocks writes exactly the packed polynomial at its place and nothing else |
| `Serialize.UnpackPoly` | components/polyvec/polyvec.c:76-115 | the loop over blocks reads exactly the unpacked polynomial |
| `Message.PolyFromMsg` | components/poly/poly.c:155-170 | bit j of byte i becomes coefficient 8i + j, (q+1)/2 for one and 0 for zero |
| `Message.PolyToMsg` | components/poly/poly.c:180-195 | the message bytes are rebuilt from the rounded coefficients |
| `Message.NoisyMessage` | components/poly/poly.c:155-195 | a message survives added noise exactly when each coefficient of the noise, centred, lies in [-832, 831] for a one and [-832, 832] for a zero |
| `Lattice.RowsAndColumns` | components/indcpa/indcpa.c:349-383 | multiplying by the matrix from the left and by its transpose from the right agree: s.(A^T r) = (A s).r |
| `Lattice.PublicVectorInRing` | components/indcpa/indcpa.c:349-383 | entry i of the public vector is, in the ring and without transforms, the sum of A[i][j] s[j] plus e[i] |
| `Lattice.CipherInRing` | components/indcpa/indcpa.c:556-595 | entry i of u is the sum of A[j][i] r[j] plus e1[i], and v is the sum of t[j] r[j] plus e2 plus the message |
| `Lattice.DecryptionResidue` | components/indcpa/indcpa.c:707-725 | v - s.u is the message plus e.r + e2 + cv - s.(e1 + cu), as residues |
| `Polyvec.PolyvecNtt` | components/polyvec/polyvec.c:157-162 | each polynomial of the vector is transformed |
| `Polyvec.PolyvecInvNttToMont` | components/polyvec/polyvec.c:172-177 | each polynomial of the vector is transformed back, times 2^16 |
| `Polyvec.PolyvecBasemulAccMontgomery` | components/polyvec/polyvec.c:189-201 | the inner product of two vectors of transforms, scaled by 2^-16 and centred; the accumulator never overflows for up to four products |
| `Polyvec.PolyvecAddReduce` | components/polyvec/polyvec.c:212-233 | the centred sums of two vectors |
| `Cbd.Cbd2` | components/cbd/cbd.c:58-76 | each coefficient is the difference of two counts of two bits of the buffer, in order |
| `Cbd.Cbd3` | components/cbd/cbd.c:89-107 | each coefficient is the difference of two counts of three bits of the buffer, in order |
| `Cbd.FieldCounts` | components/cbd/cbd.c:66-67 | the word-parallel sum of a shifted mask holds the number of ones of each pair of bits |
| `Cbd.TripleCounts` | components/cbd/cbd.c:97-99 | the same for groups of three bits |
| `Sampling.RejUniform` | components/indcpa/indcpa.c:135-157 | fills the array with the accepted values of the buffer, in order, up to the requested number |
| `Sampling.UniformIsPrefix` | components/indcpa/indcpa.c:175-203 | the first 256 values below q of the whole stream do not depend on how much of it was looked at |
| `MatrixSampling.SqueezeNext` | components/indcpa/indcpa.c:185-197 | whole SHAKE128 blocks written at an offset of the buffer are the next part of the stream of the absorbed seed |
| `MatrixSampling.RefillBuffer` | components/indcpa/indcpa.c:189-196 | the bytes behind the last whole group move to the front and the next block follows them |
| `MatrixSampling.GenPoly` | components/indcpa/indcpa.c:179-200 | with the sponge behind the blocks, the array gets the first 256 values below q of the whole output for the seed and the two indices, whatever the rate, the number of first blocks and the bytes carried over |
| `MatrixSampling.GenMatrix` | components/indcpa/indcpa.c:175-203 | with SHAKE128 and three first blocks gen_a is the matrix of the scheme, and gen_at is its exact transpose, when every stream has enough values |
| `KyberStandard.MatrixEntries` | components/indcpa/indcpa.c:175-203 | entry (i, j) is the first 256 numbers below q among the twelve-bit numbers of the SHAKE128 output for the seed, the byte j and the byte i |
| `Indcpa.DecodeEncodeV` | components/indcpa/indcpa.c:33-125 | unpacking a packed vector gives its rounded polynomials |
| `Indcpa.SecretKeyDecodes` | components/indcpa/indcpa.c:71-90 | unpack_sk gives back the transform of the secret |
| `Indcpa.PublicKeyDecodes` | components/indcpa/indcpa.c:33-69 | unpack_pk gives back the public vector and the seed |
| `Indcpa.CipherDecodes` | components/indcpa/indcpa.c:100-125 | unpack_ciphertext gives back both parts plus their rounding errors |
| `Indcpa.RoundingErrorsSmall` | components/indcpa/indcpa.c:100-125 | each rounding error is at most round(q / 2^(d+1)), centred |
| `Indcpa.KeysFrom` | components/indcpa/indcpa.c:349-383 | the keys are those of any s and e that are the noise polynomials of the second half of expand(d) with nonces 0 to k - 1 and k to 2k - 1, and of the matrix of the first half |
| `Indcpa.CiphertextFrom` | components/indcpa/indcpa.c:556-595 | the ciphertext is that of any r, e1 and e2 that are the noise polynomials of the coins with nonces 0 to k - 1, k to 2k - 1 and 2k |
| `Indcpa.DecryptEncrypt` | components/indcpa/indcpa.c:556-725 | for every key, coins and message, decryption returns the message if and only if each coefficient of e.r + e2 + cv - s.(e1 + cu) is tolerable for the message bit it disturbs |
| `Indcpa.DecryptEncryptSafely` | components/indcpa/indcpa.c:556-725 | in particular whenever every coefficient of that noise, centred, lies in [-832, 831] |
| `IndcpaRun.IndcpaKeypair` | components/indcpa/indcpa.c:349-383 | the statements compute the specified key pair and no int16 sum or product overflows; s is sampled from the second half of expand(d) with nonces 0 to k - 1 and e with nonces k to 2k - 1, none taken twice, and the published seed is the first half |
| `IndcpaRun.IndcpaEnc` | components/indcpa/indcpa.c:556-595 | the statements compute the specified ciphertext and no int16 sum or product overflows; r, e1 and e2 are sampled from the coins with nonces 0 to k - 1, k to 2k - 1 and 2k, none taken twice |
| `IndcpaRun.IndcpaDec` | components/indcpa/indcpa.c:707-725 | the statements compute the specified message and no int16 sum or product overflows |
| `DualCore.RunIsSafe` | components/indcpa/indcpa.c:216-347 | in every state of every interleaving of the two tasks no two calls race on a field of the shared structure, none reads a field nobody has written, no give finds its semaphore full, and after the caller's second take of the done semaphore both tasks have left the structure (for encryption, when no one-tick wait runs out) |
| `DualCore.RunProgresses` | components/indcpa/indcpa.c:216-347 | a run that has not completed can go on: no deadlock |
| `DualCore.RunLength` | components/indcpa/indcpa.c:216-347 | every step moves one program counter, so every run is finite |
| `DualCore.EncSafeExactly` | components/indcpa/indcpa.c:402-554 | every run of dual-core encryption is safe if and only if none of its three one-tick waits can run out |
| `DualCore.LateWaitRaces` | components/indcpa/indcpa.c:427-455 | for each of the three waits, a run in which it runs out and the next call reads what the other task is still writing |
| `DualCoreFootprint.OnlyWrites` | components/indcpa/indcpa.c:216-347 | a call changes no field that it is not said to write |
| `DualCoreFootprint.OnlyReads` | components/indcpa/indcpa.c:402-554 | what a call writes depends on no field that it is not said to read, so the races that are ruled out are all there can be |
| `DualCoreResult.PlusRegroups` | components/indcpa/indcpa.c:482-499 | adding the message to the noise before the product gives the same wrapped sums as adding them one after the other |
| `DualCoreResult.RunMemory` | components/indcpa/indcpa.c:402-554 | in every state of every run the shared memory is determined by the two program counters |
| `DualCoreResult.KeypairCompleted` | components/indcpa/indcpa.c:216-347 | every completed interleaving leaves the keys of the sequential version |
| `DualCoreResult.EncCompleted` | components/indcpa/indcpa.c:402-554 | every completed interleaving without an expired wait leaves the ciphertext of the sequential version |
| `DualCoreResult.DecCompleted` | components/indcpa/indcpa.c:611-705 | every completed interleaving leaves the message of the sequential version |
| `DualCoreCorrect.DualKeypair` | components/indcpa/indcpa.c:216-347 | from any memory, dual-core key generation computes the specified keys |
| `DualCoreCorrect.DualEnc` | components/indcpa/indcpa.c:402-554 | from any memory, dual-core encryption computes the specified ciphertext |
| `DualCoreCorrect.DualDec` | components/indcpa/indcpa.c:611-705 | from any memory, dual-core decryption computes the specified message |
| `DualCoreKernels.KernelsExist` | components/indcpa/indcpa.c:216-347 | for all suitable primitives and every entropy there are calls that meet the contracts the three results above ask for |
| `Kem.Verify` | components/verify/verify.c:16-28 | 0 when the two strings are equal and 1 otherwise |
| `Kem.Cmov` | components/verify/verify.c:40-47 | copies when the flag is 1 and leaves the buffer alone when it is 0 |
| `Kem.KemKeypair` | components/kem/kem.c:24-37 | the secret key holds the CPA secret key, the public key, its hash and z, in that order |
| `Kem.KemEnc` | components/kem/kem.c:52-77 | ciphertext and secret as specified: coins and pre-key from G(H(seed) || H(pk)), secret from KDF(pre-key || H(c)) |
| `Kem.KemDec` | components/kem/kem.c:95-128 | the secret as specified, with the pre-key replaced by z when re-encryption differs |
| `Kem.DecapsulatedCases` | components/kem/kem.c:95-128 | with a generated key the secret is KDF(z || H(c)) exactly when re-encryption of the decrypted message differs, and KDF(pre-key || H(c)) otherwise |
| `Kem.DecapsulateEncapsulate` | components/kem/kem.c:52-128 | decapsulation gives the encapsulated secret whenever the message is decrypted correctly |
| `Kem.CorrectWhenQuiet` | components/kem/kem.c:52-128 | the message is decrypted correctly if and only if the noise of this key and this encapsulation is tolerable in every coefficient |
| `Kex.UakeRun` | components/kex/kex.c:6-28 | both sides of an honest one-sided exchange derive the same key when both ciphertexts decrypt correctly: the KDF of the secret B encapsulated and then the one A encapsulated |
| `Kex.AkeRun` | components/kex/kex.c:30-54 | both sides of an honest mutual exchange derive the same key when the three ciphertexts decrypt correctly: the KDF of the two secrets B encapsulated and then the one A encapsulated |
| `Kyber.PolyGetnoise` | components/poly/poly.c:208-232 | a noise polynomial is the binomial polynomial of the SHAKE256 output for seed and nonce |
| `Kyber.KyberIsSuitable` | components/symmetric/symmetric-shake.c:18-51 | the hash, matrix and noise functions Kyber is built with satisfy what the proofs ask of them |
| `Kyber.KyberSharesSecret` | components/kem/kem.c:24-128 | with those functions both sides hold the same secret whenever the noise is tolerable |
| `KyberStandard.Sizes` | components/common/params.h:33-66 | key and ciphertext sizes, noise widths and bit widths of the three levels as numbers |
| `KyberStandard.HashFunctions` | components/symmetric/symmetric.h:64-69 | H, G, KDF and PRF are the padded sponges with rates 136, 72, 136, 136 and domains 6, 6, 1f, 1f, byte for byte |
| `KyberStandard.SchemeFunctions` | components/symmetric/symmetric.h:64-69 | the schemes call these functions, and the matrix of two, three or four rows |
| `KyberStandard.NoiseCoefficients` | components/poly/poly.c:208-232 | coefficient n of a noise polynomial is two bits minus two bits of the SHAKE256 output for seed and nonce, or three minus three for the secrets of the smallest level |
| `KyberStandard.MessageCoefficients` | components/poly/poly.c:155-170 | coefficient i of a message is 1665 for a one and 0 for a zero at bit i of its bytes |
| `KyberStandard.SecretKeyParts` | components/kem/kem.c:24-37 | a secret key is the CPA secret key, the public key, the SHA3-256 digest of it, and z |
| `KyberStandard.EncapsulationParts` | components/kem/kem.c:52-77 | the message is H(seed), pre-key and coins are the halves of G(message followed by H(pk)), the secret is the KDF of the pre-key followed by H(c), all as padded sponges |
| `KyberStandard.DecapsulationParts` | components/kem/kem.c:95-128 | the same with the decrypted message and the hash stored in the key, and z for the pre-key exactly when the ciphertext does not come out again |
| `Words.Load64` | components/fips202/fips202.c:22-30 | byte k of the loaded word is byte k of the input |
| `Words.Store64` | components/fips202/fips202.c:35-40 | byte k of the output is byte k of the word |
| `Words.XorByteBytes` | components/fips202/fips202.c:380-390 | the shifted exclusive-or of lines 380 to 390 changes one byte of the word and no other |
| `Words.WordExtensional` | components/fips202/fips202.c:22-40 | a word is determined by its eight bytes |
| `KeccakF.RhoWalk` | components/fips202/fips202.c:134-220 | the rotation amounts are those of algorithm 2 of FIPS 202 |
| `KeccakBits.RoundConstantBits` | components/fips202/fips202.c:42-68 | bit 2^j - 1 of the constant of round i is rc(j + 7i) of the shift register of algorithm 5 of FIPS 202, and every other bit is zero |
| `KeccakBits.RoundBits` | components/fips202/fips202.c:82-344 | every bit of a round is the one sections 3.2.1 to 3.2.5 of FIPS 202 define from the bits before it, with offsets and constants from the algorithms there; a permutation is 24 rounds |
| `KeccakBits.ByteBits` | components/fips202/fips202.c:22-40 | byte k of a lane is its bits 8k to 8k + 7 |
| `KeccakF.EvenRound` | components/fips202/fips202.c:126-220 | the assignments from the A to the E variables are theta, rho, pi, chi and iota on every state |
| `KeccakF.OddRound` | components/fips202/fips202.c:222-316 | the assignments from the E back to the A variables are the next round |
| `KeccakF.StatePermute` | components/fips202/fips202.c:82-344 | the unrolled loop is 24 rounds, for every state |
| `Sponge.XorAtBytes` | components/fips202/fips202.c:373-394 | one step of an inner loop is an exclusive-or of one byte of the state |
| `Sponge.AbsorbSplits` | components/fips202/fips202.c:373-394 | absorbing x and then y is absorbing x followed by y, for every split and position |
| `Sponge.KeccakAbsorb` | components/fips202/fips202.c:373-394 | the block loops absorb the input byte by byte, permuting at each full block |
| `Sponge.KeccakFinalize` | components/fips202/fips202.c:405-409 | the domain byte goes to the position and the last bit to the end of the block |
| `Sponge.KeccakAbsorbOnce` | components/fips202/fips202.c:461-485 | word-wise absorption of the whole input leaves what init, absorb and finalize leave |
| `Sponge.AbsorbedIsSponge` | components/fips202/fips202.c:461-485 | one permutation later the state is that of the sponge of FIPS 202, section 4: pad, then absorb whole blocks |
| `Sponge.KeccakSqueeze` | components/fips202/fips202.c:426-446 | the bytes written are the next part of the output stream, and the state continues it |
| `Sponge.KeccakSqueezeBlocks` | components/fips202/fips202.c:500-515 | the same for whole blocks stored word by word |
| `Sponge.StreamSplits` | components/fips202/fips202.c:426-515 | any split of the output requests yields one and the same stream |
| `Fips202.OutputIsSponge` | components/fips202/fips202.c:700-734 | every output byte is read from the padded sponge at its place |
| `Fips202.KeccakState.Update` | components/fips202/fips202.c:538-541 | shake128_absorb and shake256_absorb absorb at the stored position |
| `Fips202.KeccakState.SqueezeBlocks` | components/fips202/fips202.c:598-601 | whole blocks; the stream is continued when no block has been begun |
| `Fips202.AbsorbIncrementally` | components/fips202/fips202.c:523-584 | init, any number of absorbs and finalize leave what absorb_once leaves for the concatenation |
| `Fips202.Shake` | components/fips202/fips202.c:700-734 | squeezing blocks first and the rest after gives the specified output for every length |
| `Fips202.Sha3` | components/fips202/fips202.c:745-774 | one more permutation and the first words are the specified digest |
| `X509Names.NameCmp` | patches/x509_crt.c:340-364 | accepts exactly the names with the same attributes, text compared without regard to case |
| `X509Names.SameNameMeans` | patches/x509_crt.c:306-364 | the comparison written out: same types and grouping, values equal or both text (tags 12 and 19) and equal in lower case |
| `X509Names.SameNameEquivalence` | patches/x509_crt.c:340-364 | the comparison is reflexive, symmetric and transitive |
| `X509Parent.CheckParent` | patches/x509_crt.c:2189-2218 | name, CA bit and key usage, with the exception for locally trusted v1 and v2 certificates |
| `X509Parent.SearchIsBest` | patches/x509_crt.c:2220-2362 | the search finds the first suitable candidate that is time-valid, else the first suitable one, else none |
| `X509Parent.FindMeans` | patches/x509_crt.c:2386-2444 | a trusted certificate that may issue and did sign the child comes first, in date before out of date, then one behind the child that may issue it; none only if there is neither |
| `X509Parent.FindParentIn` | patches/x509_crt.c:2263-2362 | with any number of interruptions and resumptions the answer is that of the uninterrupted search, and a saved state can always be resumed |
| `X509Parent.FindParent` | patches/x509_crt.c:2386-2444 | the trusted list first, then the certificates after the child, resumable at every signature check |
| `X509Parent.BasicChecks` | patches/x509_crt.c:2301-2310 | given self_cnt at most path_cnt, which every caller is proved to establish, the unsigned difference of the path length check does not wrap and the check is the one of the specification |
| `X509Chain.VerifyChain` | patches/x509_crt.c:2515-2695 | a call that is not stopped builds the same chain with the same flags, or fails the same way, as an uninterrupted one; it is stopped only by a signature check that ran out of its budget; the loop terminates; at every call of find_parent, resumed ones included, self_cnt is at most path_cnt |
| `X509Chain.BuildsPath` | patches/x509_crt.c:2515-2695 | whatever is built is a path in the order of the list, each certificate the one the search finds as the issuer of the one before, with the flags of each link, never longer than the array that holds it, and ends in a trusted certificate, in a trusted end entity, or with NOT_TRUSTED at a certificate for which the search finds no issuer |
| `X509Chain.BuildsExactly` | patches/x509_crt.c:2515-2695 | there is one such path, the builder returns exactly it, and fails if and only if a tenth untrusted certificate would be needed |
| `X509Verify.MergeFlags` | patches/x509_crt.c:3020-3045 | the merged flags are the union of the flags of all items |
| `X509Verify.VerifyRestartable` | patches/x509_crt.c:3064-3154 | an answer does not depend on the interruptions before it, and leaves a clean context; only a signature check that ran out of its budget stops a call |
| `X509Verify.SuccessExactly` | patches/x509_crt.c:3064-3154 | verification without a callback succeeds if and only if the end-entity checks pass and the chain is a trusted self-issued end entity or a path to the trust list in which every link has matching names, CA bit and key usage, path length, signature, allowed key and no revocation, and every certificate is in date with allowed algorithms, each condition written out |
| `X509Flags.FlagsExactly` | patches/x509_crt.c:2574-2687 | every flag of a verdict is set if and only if some certificate of the path has its cause: past or future dates, hash, signature or key not allowed, signature wrong or issuer missing, host name, or the revocation lists; there are no flags exactly for a path that is too long |
| `X509Verify.PathlenIsStricter` | patches/x509_crt.c:2306-2309 | the path length check implies that of RFC 5280 and differs from it exactly when the child is a self-issued intermediate and the limit has no room for it |
| `X509Verify.SelfIssuedRefused` | patches/x509_crt.c:2306-2309 | for every list of an end entity and a self-issued CA certificate under a root, all else in order, RFC 5280 accepts the path whatever the limit of the root, and the verdict is success unless that limit is 0, stored as 1, and then exactly NOT_TRUSTED |
| `X509Verify.SelfIssuedRefusedExample` | patches/x509_crt.c:2306-2309 | three concrete certificates that RFC 5280 accepts and the verdict refuses |
| `PqTask.PairsHandedOut` | components/sntrup761/pq_crypto_task.c:385-408 | every pair handed out has both halves from one keygen, and no pair is handed out twice |
| `PqTask.NeverOverwritten` | components/sntrup761/pq_crypto_task.c:113-140 | whenever the buffer is written, everything published in it before has been handed out |
| `PqTask.RunsInOrder` | components/sntrup761/pq_crypto_task.c:144-178 | requests run once each in the order they were queued, and the memory written is that of a thread still waiting |
| `PqTask.AnswersAreOwn` | components/sntrup761/pq_crypto_task.c:295-362 | every call returns the result code and the output bytes of its own request, once |
| `PqTask.NoDeadlock` | components/sntrup761/pq_crypto_task.c:144-178 | while a request is unanswered or a thread asks for a pair, some thread can take a step |
| `PqTask.RunsInTime` | components/sntrup761/pq_crypto_task.c:144-178 | whatever the other threads do, a queued request has run once the task has taken as many steps as the measure of the request says, which is never more than 33 |
| `PqTask.MutexComesFree` | components/sntrup761/pq_crypto_task.c:113-140 | the task waits for nothing but the queue and the mutex, whose holder can always step and leaves after at most seven steps |
| `PqProgress.PrecomputePublishes` | components/sntrup761/pq_crypto_task.c:113-140 | from every state in which the task has taken a precompute request and no pair is ready, seven of its steps with a successful keygen publish the pair of that keygen, whatever the others do |
| `PqProgress.CanPublish` | components/sntrup761/pq_crypto_task.c:113-140 | and some continuation does so |
| `PqProgress.FailuresPublishNothing` | components/sntrup761/pq_crypto_task.c:113-140 | failed keygens publish nothing |
| `PqProgress.GetterTakesPair` | components/sntrup761/pq_crypto_task.c:385-408 | a thread that finds the pair ready under the mutex has, after seven steps, both halves of the pair published last, whatever the others do |
| `PqProgress.WipedWhenTaken` | components/sntrup761/pq_crypto_task.c:385-408 | while nobody is inside and no pair is ready, neither half is left in the buffer |
| `PqProgress.HandsOutFirst` | components/sntrup761/pq_crypto_task.c:385-408 | a run from the start in which the first pair is handed out, for any thread |
| `PqProgress.CanReturn` | components/sntrup761/pq_crypto_task.c:295-331 | a request that has run and is waited for can return at once with its own outcome, if need be after the one step that gives its semaphore |
| `PqProgress.ServesFirst` | components/sntrup761/pq_crypto_task.c:295-331 | a run from the start in which a request of any thread is answered with any outcome of the operation |
| `TlsFormat.GetPut` | patches/ssl_tls.c:3478-3480 | reading a big-endian number of w bytes gives what was written, modulo 256^w |
| `TlsFormat.PutGet` | patches/ssl_tls.c:3621-3625 | and writing what was read gives the bytes back |
| `TlsFormat.PutByte` | patches/ssl_tls.c:3478-3480 | byte i of a number of w bytes is its digit for 256^(w - 1 - i): most significant first |
| `TlsFormat.GetByte` | patches/ssl_tls.c:3621-3625 | and so for a number that is read |
| `TlsFormat.ParsePrintAll` | patches/ssl_tls.c:4178-4354 | parsing the print of any record whose values fit gives the values and whatever follows |
| `TlsFormat.PrintParseAll` | patches/ssl_tls.c:4178-4354 | whatever parses is the print of values that fit, followed by the rest, so the layout is unambiguous |
| `TlsSession.Save12` | patches/ssl_tls.c:3458-3606 | with any amount of room the cursor counts the bytes of the TLS 1.2 layout and, while they fit, the buffer holds them |
| `TlsSession.NeededIsPrinted` | patches/ssl_tls.c:3825-3885 | the size announced for TLS 1.3 before anything is written is the size of the record exactly for the two endpoints there are |
| `TlsSession.Save13` | patches/ssl_tls.c:3825-3964 | refuses a long key, announces the size, writes the record if it fits and nothing otherwise |
| `TlsSession.SessionSave` | patches/ssl_tls.c:4359-4431 | which of the five results is returned, that the size reported for a buffer that is too small is the size a successful save writes, that a successful save writes exactly the encoding, and that nothing outside the buffer changes |
| `TlsWire.WireFront` | patches/ssl_tls.c:4359-4431 | a saved session is the header, the minor version, the endpoint, the ciphersuite and the body |
| `TlsWire.Wire12` | patches/ssl_tls.c:3458-3606 | the bytes of a TLS 1.2 session of a client and of a server, number by number |
| `TlsWire.Wire13` | patches/ssl_tls.c:3825-3964 | the bytes of a TLS 1.3 session of a client and of a server, number by number; a key of more than 48 bytes is refused |
| `TlsLoad.Reader.Next` | patches/ssl_tls.c:3621-3650 | one field is taken from the rest of the buffer, or the whole buffer cannot be parsed |
| `TlsLoad.Load12` | patches/ssl_tls.c:3609-3814 | succeeds exactly on complete records without trailing bytes whose certificate parses, and returns the values in them |
| `TlsLoad.Load13` | patches/ssl_tls.c:3967-4102 | succeeds exactly on records with a key of at most 48 bytes and a protocol name of at most 255, whatever follows, and returns the values in them |
| `TlsLoad.SessionLoad` | patches/ssl_tls.c:4451-4508 | succeeds exactly on the buffers described by Accepts, returns the session they hold, and reports a version mismatch exactly for a wrong header |
| `TlsRoundTrip.RoundTrip` | patches/ssl_tls.c:4178-4354 | loading what was saved succeeds and restores every serialized field if and only if the numbers and lengths fit their fields and the certificate parses |
| `TlsRoundTrip.SaveThenLoad` | patches/ssl_tls.c:4359-4508 | a save into a buffer followed by a load of what it wrote gives the session back if and only if it fits the format and the room, and nothing outside the room changes |
| `TlsRoundTrip.LoadedFits` | patches/ssl_tls.c:4451-4508 | every session that a load returns fits the format |
| `TlsRoundTrip.SavedAgain` | patches/ssl_tls.c:3609-3814 | a TLS 1.2 record that loads is byte for byte what its session is saved as |
| `AesBits.OrthoTransposes` | components/aes256ctr/aes256ctr.c:243-271 | bit p of word j after the three layers of swaps is bit j of p's group in word p mod 8: each group of eight places is transposed |
| `AesBits.OrthoInvolution` | components/aes256ctr/aes256ctr.c:243-271 | ortho undoes itself on every eight words |
| `AesSbox.SboxIsFips` | components/aes256ctr/aes256ctr.c:68-241 | on one byte the circuit is the affine image of the inverse in GF(2^8), for all 256 bytes |
| `AesSbox.CircuitIsBytewise` | components/aes256ctr/aes256ctr.c:68-241 | on 64 bytes the circuit applies that S-box to each of them |
| `AesWords.InterleaveRoundTrip` | components/aes256ctr/aes256ctr.c:273-321 | interleave_out undoes interleave_in and the other way round |
| `AesWords.LoadedBlock` | components/aes256ctr/aes256ctr.c:493-496 | after interleave_in and ortho the slices hold the four blocks of the words |
| `AesWords.StoredBlock` | components/aes256ctr/aes256ctr.c:509-512 | ortho and interleave_out give the words of the four blocks back |
| `AesRounds.SubRefines` | components/aes256ctr/aes256ctr.c:500 | the circuit on the slices is SubBytes on each block |
| `AesRounds.RowsRefine` | components/aes256ctr/aes256ctr.c:425-441 | shift_rows on the slices is ShiftRows on each block |
| `AesRounds.MixRefines` | components/aes256ctr/aes256ctr.c:448-478 | mix_columns on the slices is MixColumns on each block |
| `AesRounds.KeyRefines` | components/aes256ctr/aes256ctr.c:413-423 | add_round_key on the slices is AddRoundKey on each block |
| `AesKeys.SubWordSliced` | components/aes256ctr/aes256ctr.c:327-337 | sub_word applies the S-box to each byte of the word |
| `AesKeys.ExpandUndoesCompress` | components/aes256ctr/aes256ctr.c:377-411 | skey_expand undoes the compression of a round key if and only if all four blocks carry the same bits |
| `AesKeys.KeySlicesRepeat` | components/aes256ctr/aes256ctr.c:369-376 | the slices of the key schedule carry the same bits for all four blocks |
| `AesKeys.KeyBlock` | components/aes256ctr/aes256ctr.c:366-411 | what skey_expand makes of a compressed round key is, in each of the four blocks, the round key |
| `AesSchedule.KeyWords` | components/aes256ctr/aes256ctr.c:339-364 | the words are those of the key expansion of FIPS 197 |
| `AesSchedule.CtrInit` | components/aes256ctr/aes256ctr.c:522-528 | compressed and expanded again, the slices hold the fifteen round keys of FIPS 197 for every block |
| `AesCt.Encrypt4` | components/aes256ctr/aes256ctr.c:498-507 | the fourteen rounds on the slices encrypt each of the four blocks as FIPS 197 does |
| `AesCt.Ctr4x` | components/aes256ctr/aes256ctr.c:486-520 | writes the four encrypted counter blocks and advances each counter by four |
| `AesCtr.NextFour` | components/aes256ctr/aes256ctr.c:486-520 | in the middle of a stream, writes its next four blocks and keeps the counter words in step |
| `AesCtr.StreamSplits` | components/aes256ctr/aes256ctr.c:579-586 | a stream of m + n blocks is one of m blocks followed by one of n blocks from the counter m later, wrap-around included |
| `AesCtr.Aes256Ctr.constructor` | components/aes256ctr/aes256ctr.c:565-577 | the context starts the stream of its key and nonce at counter 0 |
| `AesCtr.Aes256Ctr.SqueezeBlocks` | components/aes256ctr/aes256ctr.c:579-586 | successive calls write successive parts of the stream, and nothing behind them |
| `AesCtr.Prf` | components/aes256ctr/aes256ctr.c:530-563 | output of any length, the last partial block included, is the front of the stream |
| `AesCtr.PrfIsPrefix` | components/aes256ctr/aes256ctr.c:557-586 | and so the front of what squeezeblocks writes for any sufficient number of blocks |

## Left out

- Vectors of polynomials are passed by value between the array kernels (`Polyvec`, `IndcpaRun`), so aliasing between whole vectors is not modelled; the arrays inside the kernels are updated in place.
- Random bytes (`esp_randombytes`) are parameters of the models.
- `Indcpa`, `Kem`, `Kex` take the hash, matrix and noise functions as parameters with the lengths and ranges they have; `Kyber` shows that the SHAKE and SHA-3 versions fit. The 90S build is not instantiated, since its SHA-2 code is not modelled.
- GenPoly: the loop ends only for a stream with enough values below q, which is a hypothesis (`Productive`); that SHAKE128 output is such a stream is not proved.
- Failure probability of decryption and the distribution of samples: the noise bound is a condition, not an event.
- Constant-time behaviour.
- DualCore: task creation, priorities and stack sizes; creating a task or a semaphore is taken to succeed. A call is one step, with races between calls in progress excluded by `RunIsSafe`.
- DualEnc: only runs in which no one-tick wait expires, because with an expiry the result depends on timing; `DualCore.EncSafeExactly` shows that this is the exact condition for safety.
- Kex: the parties are honest; nothing is said of an active attacker.
- Fips202: the 32-bit `pos` and `size_t` lengths are unbounded naturals.
- X509Parent: a certificate is the fields the path builder looks at; parsing, signature verification and revocation lists are functions of a pair of certificates, and time is an integer.
- X509Verify: verification callbacks, the trusted-certificate callback, a missing profile and a failing clock are not modelled; whether the host name matches is a parameter.
- PqTask: what keygen, enc and dec compute: an operation leaves any code and any bytes with its caller. `pq_crypto_task_deinit`, allocation failures, and calls with a timeout; every call waits for ever, as with timeout 0. Copies of key material and of results are one step each, and the bytes are named by the keygen they come from.
- TlsSession: one configuration, with every optional field of the format and both endpoints compiled in; the other configurations leave fields out. Numbers are unbounded naturals with the widths of their fields; the overflow check of `size_t` in ssl_tls13_session_save is left out.
- SessionSave: for the endpoints client and server, as the source's type intends; `TlsSession.NeededIsPrinted` says what any other value would do.
- Load12: parsing the certificate is a predicate on its bytes, and allocations succeed.
- Load13: the session is freshly initialized; a protocol name without terminator is taken to end with the buffer, where the C code would read on.
- Prf: the output array has exactly the requested length.
- Aes256Ctr: key and nonce are sequences; keeping time independent of the data is not modelled.
- User interface, sockets, storage, display, logging, the SMP protocol, zstd, the rest of the TLS stack: out of scope.
