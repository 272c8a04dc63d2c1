# SecureVault in Dafny

SecureVault is an end-to-end encrypted file store that carries its own cryptography. This project
models its three layers and proves them correct on top of each other, up to one statement about
whole runs: whatever honest users do, a download that completes writes exactly the bytes that were
uploaded and names the uploader, and every stored share gives its recipient the file key chosen at
upload (`Runs.UploadedIsDownloaded`, `Runs.SharesCarryUploadKey`).

**Arithmetic and block code.** GF(2^128) multiplication, GHASH, CTR and GCM (`Gf128`,
`Polynomials`, `Ghash`, `Gcm`), AES (`Aes`, `AesField`, `AesCipher`, `AesPermutation`, `SBoxes`), SHA-256 in one
piece and streaming (`Sha256`, `Hmac`), and P-256 with ECDSA, its deterministic nonces and ECDH
(`ModArith`, `CurveAlgebra`, `AffineCurve`, `P256`, `Ecdsa`, `Nonces`, `Ecdh`). The code's loops are
methods proved equal to short recursive functions; the algebra is proved about those functions.
`AesStandard` and `Sha256Standard` say what tables, constants and steps are by the standards' own
definitions, apart from the code. Bytes are integers below 256 and
words are natural numbers with the masks written out (`Bits`).

**Byte formats.** Strict UTF-8 and hexadecimal text (`Utf8`), the SVD1 and SVS1 blobs and the
payload with the moving cursor that parses them (`Formats`), wire frames and sockets that deliver
a stream in any pieces (`Wire`), the exact lengths of the JSON frames and what becomes of those that
are too long (`Messages`), the key file (`Keystore`).

**Protocol state.** The session state (`Session`), the three tables (`Database`), the handlers as
sequences of atomic steps, one per call into a locked object (`Server`), every interleaving of those
steps (`Interleaving`), password changes under every interleaving (`Passwords`), one request served
alone (`Exchanges`), the trust store (`TrustStore`), what clients pack and sign (`Envelopes`), the
client (`Client`), what a download has checked whatever the server holds (`Downloads`), the end-to-end
invariant (`EndToEnd`), whole runs (`Runs`), runs in which the
requests of many clients and the steps of the threads that serve them interleave (`Overlap`), when
calls complete (`Completion`), and what shares from strangers do (`ForeignShares`).
Classes keep the source's mutable objects; each method states the whole new state.

Names and strings are sequences of Unicode code points, lone surrogates included, so that the
errors of `str.encode` and of SQLite are error branches of the model. An exception of the source is
a `None`, an `Err` or a `Failed` reply.

## What is assumed

Some statements about P-256 rest on the named predicate `P256.StandardFacts`, which appears as a
precondition wherever it is used: the field modulus and the group order are prime, the addition of
curve points is associative, and every point has order N. Totality, closure, commutativity,
inverses and the identity are proved. The results about a single changed block rest on
`Ghash.NoZeroDivisors`; without it `Ghash.OneBlockCollision` says exactly when two hashes collide.
In `Wire` JSON is a codec with `Wire.Faithful` as hypothesis, and `Messages` delivers the fields that
were sent; a string in which a high surrogate stands directly before a low one, which JSON text merges
into one character, is outside of both. Whether a path can be written is an input of sign-up, password
change and download; trust files are taken to be written when they change. Nothing else is assumed: no
collision resistance, no unforgeability.

## Findings

- `share` on the server never asks whether the sender owns or can read the document. A registered user
  who can do neither replaces a reader's good share, and that reader's downloads fail from then on
  (`ForeignShares.ForeignShareBlocks`). After a share from any registered user, the reader's share is
  good exactly when the request was not ready to be accepted or its sender chose the file key of the
  upload and the hash of the stored ciphertext (`ForeignShares.SentShareStays`);
  `ForeignShares.GoodShareStays` says it for every request. The theorems about runs therefore speak of honest clients, which
  only share what they could unwrap.
- A document can be uploaded and never come back. The reply to GET_DOC carries the share as well as the
  document, so it is longer than the UPLOAD frame was, and the limit of 128 MiB for a frame is the
  same. The owner can fetch a document that was uploaded exactly when that reply fits
  (`Completion.UploadedIsFetched`); under one-letter names a file of 100,662,998 bytes is accepted in a
  frame of 134,217,726 bytes, and its reply of 134,217,919 is refused
  (`Completion.TooLongToReturn`, `Completion.UploadedNeverFetched`).
- `MAX_CONTENT_LEN` never decides. Inside a payload the 32-bit length field refuses first
  (`Formats.ContentBound`); for an upload the limit of the frame refuses long before that
  (`Completion.UploadCompletes`).
- `change_password` checks its proof against a record read before the update. A request is accepted
  exactly when its proof verified under the login key in the table at its look-up, its nonce was new at
  the nonce check and its parameters fit (`Passwords.PasswordOutcome`). Two requests signed with one old
  key, whenever each of them arrives, are therefore both accepted exactly when neither is looked up
  after the other's update, or the one that is verifies under the key then stored
  (`Passwords.BothAccepted`); `Interleaving.PasswordRace`
  shows a schedule on which both are.
- `signup` and `change_password` on the client replace the key file before the server answers, so a
  refused call leaves file and server apart: `Completion.SignUpWritesFirst` and
  `Completion.SwitchCompletes` say exactly when, and `Completion.SwitchLeavesApart` shows it for a
  request nonce that was used before. Runs count only completed calls of these two.
- The signed share strings of two different senders can coincide exactly when one name is the other
  followed by a colon and more (`Session.SendersMeetIff`); `Session.ShareStringAmbiguous` is a family of
  collisions, and `Session.ShareCollisionIff` says when two strings are equal. When only identifiers
  count that the server accepts, one must follow right behind that colon (`Session.RequestsMeetIff`). Without colons in the
  identifiers and nonces, the strings of the other requests determine all their parts.
- `sign` recomputes the same k in every pass of its loop, so a first pass without a signature is a
  failure (`Ecdsa.SignLoop`).
- The comment at server/server.py:24-27 promises a stable salt to an unknown name in `get_salt` too;
  the handler answers with an error instead, and only `login_challenge` pretends
  (`Exchanges.LookUpEffect`, `Exchanges.ChallengeEffect`). The model follows the code.
- The foreign keys declared in server/db.py are never enforced; that rows refer to existing rows
  follows from the handlers and from users and documents only being added
  (`Interleaving.EveryScheduleSafe`).
- No handler updates a document, so version counting is a property of the database alone
  (`Database.VersionCounts`), and no client remembers the highest version it has seen.
- The 2^36 - 32 byte bound of GCM is not only sufficient but exact for the zero nonce that clients
  use (`Gcm.LengthBoundIsExact`).

## Model

| member | source | states |
|---|---|---|
| Bits.FirstByte | crypto/gcm.py:27-29 | In `int.from_bytes(b, "big")`, as in all big-endian fields of the model, the first byte is the most significant |
| Gf128.Gf128Mul | crypto/gcm.py:12-24 | The 128-pass loop over z and v computes the product below for all 128-bit operands |
| Gf128.MulOne | crypto/gcm.py:12-24 | 1 << 127 is the identity on both sides (reflected bits of section 6.3 of SP 800-38D) |
| Gf128.MulComm | crypto/gcm.py:12-24 | Multiplication is commutative |
| Gf128.MulAssoc | crypto/gcm.py:12-24 | Multiplication is associative |
| Gf128.MulAdd | crypto/gcm.py:12-24 | Multiplication distributes over XOR on both sides |
| Polynomials.MulIsPolynomialProduct | crypto/gcm.py:9-24 | The product is the remainder of the product of the two reflected polynomials over GF(2) modulo x^128 + x^7 + x^2 + x + 1, with an explicit quotient |
| Polynomials.ReduceIsRemainder | crypto/gcm.py:9-24 | Reduction by shifting with R is division with remainder by the modulus, for polynomials of any degree |
| Polynomials.ReduceMul | crypto/gcm.py:12-24 | Reduction carries products of polynomials of any degree to field products |
| Ghash.GHash | crypto/gcm.py:39-46 | The block loop computes the Horner form of the hash for all aligned data |
| Ghash.HashIsWeightedSum | crypto/gcm.py:39-46 | The hash is the sum of X_i * H^(n-i+1) (section 6.4 of SP 800-38D) |
| Ghash.HashLinear | crypto/gcm.py:39-46 | The hash of the XOR of equally long data is the XOR of the hashes |
| Ghash.OneBlockCollision | crypto/gcm.py:39-46 | Data that differ in one block collide exactly when the difference times the power of H at that place is zero |
| Ghash.OneBlockChangesHash | crypto/gcm.py:39-46 | Without zero divisors and with H nonzero, changing exactly one block always changes the hash |
| Gcm.Gctr | crypto/gcm.py:58-67 | The loop over 16-byte chunks XORs the data with the keystream of successive counters, cut to the data's length |
| Gcm.CtrInvolution | crypto/gcm.py:58-67 | Applying the keystream twice gives the data back, for every length |
| Gcm.CounterValue | crypto/gcm.py:51-55 | The k-th counter after J0 is the nonce followed by 1 + k modulo 2^32 |
| Gcm.CountersDistinct | crypto/gcm.py:51-67 | Two counters under a nonce are equal exactly when their indices agree modulo 2^32 |
| Gcm.CounterIsSubkeyInput | crypto/gcm.py:78-82 | A counter block equals the all-zero block that produces H exactly for the zero nonce and counter 2^32 - 1 |
| Gcm.LengthBoundIsExact | crypto/gcm.py:74-82 | Under the zero nonce, all AES inputs for the data are distinct from each other, from J0 and from the subkey input if and only if the length is within the bound |
| Gcm.CountersApart | crypto/gcm.py:51-82 | Under every nonce, the counter blocks for the data and J0 are pairwise distinct exactly when there are fewer than 2^32 for the data, as there always are within the length bound |
| Gcm.ZeroPad | crypto/gcm.py:129-132 | The padding is the shortest that reaches a multiple of 16 |
| Gcm.HashedBytes | crypto/gcm.py:84-90 | The hashed string byte by byte: associated data and ciphertext, each filled up with zeros to whole blocks, and both lengths in bits, big-endian in eight bytes each |
| Gcm.GhashInputInjective | crypto/gcm.py:84-90 | Equal hash inputs come from equal pairs of associated data and ciphertext |
| Gcm.ComputeTag | crypto/gcm.py:84-94 | The tag computed by hashing and enciphering J0 is the specified tag |
| Gcm.ConstTimeEqual | crypto/hmac.py:44-50 | The accumulating comparison decides equality of byte strings |
| Gcm.Encrypt | crypto/gcm.py:72-95 | Encryption returns the sealed form or raises, for every key, nonce, plaintext and associated data |
| Gcm.Decrypt | crypto/gcm.py:98-124 | Decryption returns the plaintext, None or raises, for all inputs |
| Gcm.SealedBytes | crypto/gcm.py:72-95 | What is computed, with the counters spelled out: ciphertext byte i is masked with the encipherment of nonce and counter i/16 + 2, the tag with that of nonce and counter 1 |
| Gcm.SealDefined | crypto/gcm.py:72-95 | Encryption raises exactly for other key or nonce lengths, beyond 2^36 - 32 bytes of data, and for associated data of 2^61 bytes or more |
| Gcm.OpenDefined | crypto/gcm.py:98-124 | Decryption raises exactly for other key or nonce lengths and, with a 16-byte tag, for data of 2^61 bytes or more; a tag of another length never opens |
| Gcm.OpenIffSeal | crypto/gcm.py:72-124 | Within the bound, decryption yields p if and only if encrypting p yields that ciphertext and tag |
| Gcm.OpenSeal | crypto/gcm.py:72-124 | What is sealed opens to itself, with a ciphertext of the same length |
| Gcm.TamperedBlockRejected | crypto/gcm.py:98-124 | If a ciphertext is accepted, the same ciphertext with one block changed is rejected under the same tag |
| Aes.GMulLoop | crypto/aes.py:57-65 | The eight-pass loop computes the recursive product GMul, whose meaning is the next row |
| AesField.GMulIsPolynomialProduct | crypto/aes.py:52-65 | The product of two bytes is the remainder of the product of their polynomials over GF(2) modulo x^8 + x^4 + x^3 + x + 1, with an explicit quotient |
| AesField.ByteReduceIsRemainder | crypto/aes.py:52-54 | Reduction by repeated xtime is division with remainder by that modulus, for polynomials of any degree |
| AesStandard.SBoxIsAffineInverse | crypto/aes.py:6-39 | Section 5.1.1 of FIPS 197 for every byte: 0 goes to 0x63, and each other byte has an inverse in GF(2^8) whose bits i, i+4, i+5, i+6, i+7 (modulo 8) and bit i of 0x63 add up to bit i of its entry |
| AesStandard.RoundConstants | crypto/aes.py:44-47 | The round constants are 1 and then each the double of the one before, in GF(2^8) |
| AesStandard.KeySchedule | crypto/aes.py:80-110 | Every byte of the expanded key, for both key lengths: the key itself, then the byte one key length back plus a byte of the word before, which is rotated, substituted and given a round constant at the start of a key length, and only substituted at 16 bytes into it |
| AesStandard.CipherBytes | crypto/aes.py:116-189 | Every byte of every state and of the enciphered block: the first key addition, the rounds as 2, 3, 1, 1 times the substituted bytes of the shifted rows plus the key byte, and the last round without that product |
| Aes.KeyExpansion | crypto/aes.py:80-110 | The loop that appends words builds the round keys of section 5.2 of FIPS 197, and raises exactly for keys of other lengths |
| AesCipher.SubBytesInPlace | crypto/aes.py:116-118 | The in-place loop substitutes every byte of the state |
| AesCipher.ShiftRowsInPlace | crypto/aes.py:121-134 | The three in-place rotations are the row shift given by one index formula |
| AesCipher.MixColumnsInPlace | crypto/aes.py:137-145 | The in-place column loop multiplies every column by the circulant matrix |
| AesCipher.AddRoundKeyInPlace | crypto/aes.py:148-150 | The in-place loop XORs the round key |
| AesCipher.RunRounds | crypto/aes.py:172-189 | The round loop over the array computes the enciphering of the block |
| AesCipher.EncryptBlock | crypto/aes.py:155-189 | The function form enciphers, and raises exactly for other block or key lengths |
| AesCipher.AES.EncryptBlock | crypto/aes.py:201-214 | The class form computes the same block as the function form, for every key and block |
| AesCipher.MakeAes | crypto/aes.py:194-199 | Construction succeeds exactly for 16- and 32-byte keys and stores their round keys |
| AesPermutation.MixColumnOrderFour | crypto/aes.py:137-145 | Mixing a column four times restores it, for all columns |
| AesPermutation.MixColumnsInverse | crypto/aes.py:137-145 | Three further applications undo MixColumns, on both sides |
| AesPermutation.SubBytesInverse | crypto/aes.py:116-118 | The inverse table undoes SubBytes on both sides |
| AesPermutation.ShiftRowsInverse | crypto/aes.py:121-134 | The opposite rotation undoes ShiftRows on both sides |
| AesPermutation.RoundsInverse | crypto/aes.py:177-182 | Any number of rounds is undone on both sides |
| AesPermutation.DecryptWithInverse | crypto/aes.py:172-189 | For every list of round keys, enciphering has a two-sided inverse |
| AesPermutation.EncryptIsPermutation | crypto/aes.py:155-189 | For every 16- or 32-byte key, enciphering is one-to-one and onto |
| Sha256.FillSchedule | crypto/sha256.py:92-102 | The two loops fill the message schedule of section 6.2.2 of FIPS 180-4 |
| Sha256.RunRounds | crypto/sha256.py:105-118 | The eight working variables after 64 rounds |
| Sha256.CompressLoop | crypto/sha256.py:89-130 | The whole compression of one block |
| Sha256.PadLoop | crypto/sha256.py:78-84 | The zero loop stops at the shortest padding, for one-shot and leftover data alike |
| Sha256.PadInjective | crypto/sha256.py:72-84 | Below 2^61 bytes, equal padded messages come from equal messages |
| Sha256.FoldAppend | crypto/sha256.py:141-142 | Folding over concatenated block-aligned data is folding twice |
| Sha256.Sha256OneShot | crypto/sha256.py:135-143 | The digest, or OverflowError from 2^61 bytes on |
| Sha256.Stream.Update | crypto/sha256.py:157-169 | The state stays the fold over the consumed full blocks with the remainder under 64 bytes buffered; it raises after digest |
| Sha256.Stream.Finish | crypto/sha256.py:171-184 | The digest of everything fed so far equals the one-shot digest of it; a second call raises |
| Sha256.HashChunks | crypto/sha256.py:149-184 | For every split into updates, the stream gives the one-shot digest of the concatenation |
| Sha256Standard.RoundConstants | crypto/sha256.py:3-20 | The sixty-four constants are the first 32 bits of the fractional parts of the cube roots of the first sixty-four primes |
| Sha256Standard.InitialState | crypto/sha256.py:22-27 | The initial state is the same of the square roots of the first eight |
| Sha256Standard.ChBit | crypto/sha256.py:46-47 | Bit by bit, the first argument chooses between the other two |
| Sha256Standard.MajBit | crypto/sha256.py:50-51 | Bit by bit, the majority of the three |
| Sha256Standard.SigmaBits | crypto/sha256.py:35-67 | Bit i of the four sums, by the rotated and shifted positions of section 4.1.2 of FIPS 180-4 |
| Sha256Standard.LengthLimit | crypto/sha256.py:72-84 | The hash raises exactly from where the length in bits takes more than 64 |
| Sha256Standard.PaddedBytes | crypto/sha256.py:72-84 | The padded message byte by byte: the message, 0x80, zeros, and its length in bits, big-endian in eight bytes; it is the shortest of whole blocks |
| Sha256Standard.CompressMeets | crypto/sha256.py:89-130 | Any schedule and sixty-five states that satisfy the equations of section 6.2.2 of FIPS 180-4 end in the compression of the block |
| Sha256Standard.DigestMeets | crypto/sha256.py:135-143 | The digest is the big-endian words of the last of any states chained by compression from the initial one over the padded message |
| Hmac.HmacIs | crypto/hmac.py:9-35 | RFC 2104 on bytes: the hash of the key masked with 0x5C and of the hash of the key masked with 0x36 and the message, the key filled up to 64 bytes or hashed first |
| Hmac.DerivedKeys | crypto/kdf.py:4-14 | The two keys are drawn under the texts "auth" and "kek" |
| ModArith.ModInvIsInverse | crypto/ec_p256.py:50-51 | A computed inverse times its argument is 1 modulo m |
| ModArith.PrimeInvertible | crypto/ec_p256.py:50-51 | Modulo a prime every nonzero residue has an inverse |
| AffineCurve.DoubleClosed | crypto/ec_p256.py:93-104 | On a reduced curve point over a prime, doubling inverts without failure and stays on the curve |
| AffineCurve.SumClosed | crypto/ec_p256.py:69-90 | The same for addition in all its branches |
| AffineCurve.ChordSumIff | crypto/ec_p256.py:69-90 | Over every prime modulus, that of P-256 among them, for points with different x, (x3, y3) is the sum if and only if it is reduced, (x3, -y3) lies on the line through both, and x1 + x2 + x3 is the square of its slope, told without division |
| AffineCurve.TangentDoubleIff | crypto/ec_p256.py:93-104 | The same for doubling and the tangent |
| AffineCurve.SumCommutes | crypto/ec_p256.py:69-90 | Addition commutes across identity, inverse, doubling and chord branches |
| AffineCurve.SumInverse | crypto/ec_p256.py:69-83 | A point plus its negation is the identity, and the negation is on the curve |
| AffineCurve.DoubleIsSum | crypto/ec_p256.py:93-104 | Doubling is adding a point to itself, vertical tangents included |
| P256.AddIsPointAdd | crypto/ec_p256.py:69-90 | On P-256 addition is total, closed and symmetric |
| AffineCurve.OppositeSum | crypto/ec_p256.py:69-90 | Two points add up to the identity if and only if they are each other's negation |
| P256.Parameters | crypto/ec_p256.py:7-14 | The field modulus is 2^256 - 2^224 + 2^192 + 2^96 - 1, and the group order lies within the bound of Hasse |
| P256.DoubleIsAdd | crypto/ec_p256.py:93-104 | Doubling on P-256 is total and equals self-addition |
| P256.AddInverse | crypto/ec_p256.py:110-113 | The negation that scalar_mul uses is the additive inverse |
| P256.ScalarMulLoop | crypto/ec_p256.py:107-122 | The while loop computes the recursive ladder, with its early exit and its negative branch |
| P256.LadderIsTimes | crypto/ec_p256.py:115-122 | result plus k times addend is invariant: the ladder adds k copies of the point |
| P256.ScalarMulIsTimes | crypto/ec_p256.py:107-122 | For every integer k, negative and multiples of N included, scalar_mul is the k-fold sum |
| P256.TimesMod | crypto/ec_p256.py:107-109 | Multiples depend on k modulo N only |
| P256.TimesNonzero | crypto/ec_p256.py:107-122 | k in [1, N-1] times a point that is not the identity is not the identity |
| P256.GeneratorOnCurve | crypto/ec_p256.py:16-19 | The base point satisfies the curve equation |
| P256.DecodeIffEncode | crypto/ec_p256.py:136-152 | The decoder accepts exactly the encodings of affine curve points, and inverts them |
| P256.EncodedPoint | crypto/ec_p256.py:136-152 | The encoding of a point is 65 bytes: 0x04 and both coordinates, big-endian |
| Ecdsa.SignLoop | crypto/ecdsa.py:87-111 | The loop of a thousand passes equals its first pass |
| Ecdsa.SignIff | crypto/ecdsa.py:87-111 | sign returns a signature exactly for valid keys where neither the x coordinate of kG nor z + r d vanishes modulo N |
| Ecdsa.SignatureEquation | crypto/ecdsa.py:99-110 | A returned (r, s) lies in [1, N-1] with r the x coordinate of kG and s = (z + r d) / k modulo N |
| Ecdsa.SignedVerifies | crypto/ecdsa.py:87-148 | Whenever sign returns, verify accepts under the signer's encoded key, for every valid d, every message (hashes of N or more included) and every k the generator may give |
| Ecdsa.VerifyIff | crypto/ecdsa.py:116-148 | When verify accepts: r and s in range, the key a curve point Q, and (z/s) G + (r/s) Q not the identity and with x coordinate r modulo N |
| Ecdsa.BytesVerifyIff | crypto/ecdsa.py:116-163 | Whatever the bytes: decoding and verifying accepts exactly 64 bytes whose halves r and s lie in [1, N-1] and where r is the x coordinate of (z/s) G + (r/s) Q, for the digest z and the point Q of the key |
| Ecdsa.BytesVerifyWith | crypto/ecdsa.py:116-163 | Any inverse of s gives the same verdict |
| Ecdsa.HashIsNumber | crypto/ecdsa.py:168-170 | The number that is signed is the whole SHA-256 digest, big-endian |
| Ecdsa.PublicPoint | crypto/ecdsa.py:16-23 | The public key of a valid scalar exists, encodes and decodes back |
| Ecdsa.SignatureEncoding | crypto/ecdsa.py:153-163 | The 64-byte encoder and decoder are inverse in both directions |
| Ecdsa.EncodedSignature | crypto/ecdsa.py:153-163 | The encoding is r and then s, big-endian in 32 bytes each |
| Ecdsa.SignatureEncodes | crypto/ecdsa.py:153-163 | Every signature in range has a 64-byte encoding that decodes back |
| Nonces.GenerateK | crypto/ecdsa.py:50-82 | The two loops return the first candidate in [1, N-1], where there is one |
| Nonces.SeededBy | crypto/ecdsa.py:38-69 | Steps a to g of section 3.2 of RFC 6979, with the scalar in 32 bytes and the digest reduced modulo N |
| Nonces.CandidatesAre | crypto/ecdsa.py:71-82 | Step h: each candidate and the rekeying after one that is out of range |
| Nonces.DeterministicSignature | crypto/ecdsa.py:87-111 | The signature depends on the scalar and the message alone, and it verifies |
| Ecdh.SharedKeyDefined | crypto/ecdh.py:28-54 | A shared key exists if and only if the scalar is valid and the peer key decodes: infinity is never reached |
| Ecdh.SharedKeyIs | crypto/ecdh.py:28-54 | The shared key is the hash of the label, of the x coordinate of d times the peer's point in 32 bytes, big-endian, and of the info string |
| Ecdh.LabelText | crypto/ecdh.py:12-12 | The label is the text "SecureVault-ECDH-v1" |
| Ecdh.Agreement | crypto/ecdh.py:28-54 | Both parties derive the same key for every pair of valid scalars and every info string |
| Utf8.DecodeIffEncode | common/formats.py:49-82 | Strict decoding succeeds exactly on encodings of strings and undoes them (section 3 of RFC 3629) |
| Utf8.EncodedOne | common/formats.py:49-49 | One to four bytes by the size of the code point, six bits of it in every byte but the first (section 3 of RFC 3629) |
| Utf8.EncodableIffNoSurrogate | common/formats.py:49-49 | A string encodes if and only if it has no surrogate |
| Utf8.FromToHex | server/server.py:293-296 | bytes.fromhex, which also takes capitals and white space, inverts bytes.hex |
| Utf8.HexDigitsAt | client/trust_store.py:61-63 | bytes.hex writes two lower-case digits for each byte, the higher one first |
| Utf8.HexValueIff | server/server.py:293-296 | Which characters are read as digits, and as which |
| Formats.Reader.Read | common/formats.py:67-72 | A read returns the next n bytes and moves past them, or fails and does not move |
| Formats.Reader.ReadInt | common/formats.py:74-76 | A big-endian integer field |
| Formats.Reader.ReadStr | common/formats.py:78-82 | A string field, refused above 4096 bytes or outside UTF-8 |
| Formats.TakeStrIff | common/formats.py:45-82 | A string field is read exactly where one was printed |
| Formats.TakeHeaderIff | common/formats.py:109-160 | A header is read exactly where one was printed |
| Formats.UnpackDocumentLoop | common/formats.py:149-177 | The cursor parser computes the document parser, with header_aad the raw slice |
| Formats.DocumentIff | common/formats.py:109-177 | A document blob is accepted if and only if it is the printed form of its fields, and header_aad is then exactly the printed header |
| Formats.DocumentFields | common/formats.py:149-177 | The byte offsets at which the fields of an accepted document lie |
| Formats.UnpackPayloadLoop | common/formats.py:209-220 | The cursor parser computes the payload parser |
| Formats.PayloadIff | common/formats.py:184-220 | A payload is accepted if and only if it is the printed form of its fields |
| Formats.PayloadFields | common/formats.py:209-220 | The byte offsets at which the fields of an accepted payload lie |
| Formats.ContentBound | common/formats.py:184-198 | What can be packed: contents below 2^32 bytes, printable names and a 64-byte signature |
| Formats.UnpackShareLoop | common/formats.py:279-301 | The cursor parser computes the share parser |
| Formats.ShareIff | common/formats.py:244-301 | A share blob is accepted if and only if it is the printed form of its fields |
| Formats.ShareFieldsAt | common/formats.py:279-301 | The byte offsets at which the fields of an accepted share lie |
| Formats.BodyDeterminesShare | common/formats.py:244-269 | Shares with equal signed bodies differ at most in the signature |
| Wire.CodesInverse | common/wire.py:11-30 | The type byte determines the message type and conversely |
| Wire.TypeBytes | common/wire.py:11-30 | Requests are numbered from 1 and replies from 0x80, in order |
| Wire.RecvExact | common/wire.py:81-93 | However the network splits the stream, exactly n bytes are taken, or ConnectionError when the peer closes early |
| Wire.RecvMessage | common/wire.py:68-76 | The message received depends only on the bytes of the stream |
| Wire.ReceiveEncoded | common/wire.py:33-76 | An encoded frame is received as its message and nothing behind it is touched |
| Wire.ReceiveSent | common/wire.py:33-76 | Messages sent back to back are received in order |
| Wire.ReceivedIff | common/wire.py:43-76 | A message is received if and only if the stream begins with four bytes of length, at most 128 MiB, the byte of its type and the text of its object, and then just the rest is left |
| Messages.EscapeLength | common/wire.py:36-36 | The length of a code point in JSON text is that of its escape |
| Messages.OkTrip | client/client.py:92-102 | A request that is answered by a plain OK can fail by length only before it is sent: its OK always fits |
| Messages.RegisterFits | client/client.py:149-156 | A REGISTER frame fits exactly when 392 bytes and the JSON text of the name do |
| Messages.SignedLengths | client/client.py:252-393 | The exact frame lengths of UPLOAD, SHARE and CHANGE_PASSWORD: constants plus the JSON texts of names and nonces plus the base64 text of the blob |
| Messages.FetchLengths | server/server.py:350-353 | The exact frame lengths of GET_DOC and of the DOC reply with document and share |
| Messages.SmallReplies | server/server.py:184-238 | Salts, parameters, challenges and public keys of the protocol's sizes always come back |
| Session.SessionState.IssueChallenge | server/session.py:37-42 | The newest challenge of a user replaces an older one |
| Session.SessionState.ConsumeChallenge | server/session.py:44-57 | The challenge is removed in any case and returned only when fresh |
| Session.SessionState.CheckAndConsumeNonce | server/session.py:61-72 | A nonce is accepted once; the empty one never |
| Session.NonceAcceptedOnce | server/session.py:61-72 | In any run of calls, a nonce is accepted if and only if it is not empty and no earlier call presented it |
| Session.ChallengeIsOneShot | server/session.py:37-57 | In any run of calls, a challenge is handed out if and only if it was issued to that user at most 60 seconds before and nothing about that user's challenge came in between |
| Session.SignedByIff | server/session.py:81-103 | A request's text is accepted if and only if it encodes and the bytes are a genuine signature of it under the key, by the equation of Ecdsa.BytesVerifyIff |
| Session.SignedTexts | server/session.py:108-117 | The texts of upload and download, written out |
| Session.SignedShareText | server/session.py:112-113 | The text of share, written out |
| Session.SignedPasswordText | server/session.py:120-121 | The text of change_password, written out |
| Session.ShareStringUnambiguous | server/session.py:112-113 | Under one sender, with identifiers and nonces free of colons, a signed share string fixes document, recipient and nonce |
| Session.DownloadStringUnambiguous | server/session.py:116-117 | Under one user, with identifiers free of colons, a signed download string fixes document and nonce |
| Session.UploadStringInjective | server/session.py:108-109 | With nonces free of colons, a signed upload string fixes owner and nonce |
| Session.ChangePasswordStringInjective | server/session.py:120-121 | With nonces free of colons, a signed change_password string fixes user and nonce |
| Session.DownloadStringInjective | server/session.py:116-117 | With identifiers and nonces free of colons, a signed download string fixes user, document and nonce |
| Session.ShareStringInjective | server/session.py:112-113 | With identifiers and nonces free of colons, a signed share string fixes all four parts when both senders, or both recipients, are free of colons |
| Session.ShareCollisionIff | server/session.py:112-113 | With nonces free of colons, two share strings are equal exactly when the nonces and the texts sender:document:recipient are |
| Session.SendersMeetIff | server/session.py:112-113 | Different senders can sign one and the same share string if and only if one name is the other, a colon and more |
| Session.RequestsMeetIff | server/session.py:112-113 | With identifiers of 16 bytes in hexadecimal, which the handler requires, different senders can sign one share string if and only if one name is the other, a colon and such an identifier, then nothing or a colon and more |
| Session.ShareStringAmbiguous | server/session.py:112-113 | A family of such collisions |
| Session.KindsDisjoint | server/session.py:108-121 | A string signed for one kind of request is never one of another kind |
| Database.ServerDB.CreateUser | server/db.py:127-137 | A new row, or an error and no change |
| Database.ServerDB.UpdateUserAuth | server/db.py:149-160 | Salt, parameters and login key change, identity keys do not |
| Database.ServerDB.CreateDocument | server/db.py:164-175 | A new row at version 1, or an error and no change |
| Database.ServerDB.UpdateDocument | server/db.py:177-196 | Version + 1 replaces version, time and blob, keeping the owner |
| Database.ServerDB.CreateOrReplaceShare | server/db.py:218-225 | One row per document and recipient, the last one written |
| Database.VersionCounts | server/db.py:164-196 | Over any sequence of calls, the version of a document counts the accepted ones |
| Database.DocumentHistory | server/db.py:164-196 | A document keeps its owner, versions only grow, and equal versions mean an unchanged row |
| Server.StepProgress | server/server.py:143-398 | Every handler ends after at most five atomic steps |
| Server.SecureVaultServer.Authenticate | server/server.py:404-423 | User, signature, nonce, in this order; a refusal changes nothing |
| Server.SecureVaultServer.HandleRegister | server/server.py:143-163 | The handler is its atomic steps run alone |
| Server.SecureVaultServer.HandleLoginChallenge | server/server.py:165-188 | The handler is its atomic steps run alone, unknown names included |
| Server.SecureVaultServer.HandleLogin | server/server.py:190-212 | The handler is its atomic steps run alone |
| Server.SecureVaultServer.HandleLookUp | server/server.py:214-238 | The two look-ups change nothing and are their atomic steps run alone |
| Server.SecureVaultServer.HandleUpload | server/server.py:240-272 | The handler is its atomic steps run alone |
| Server.SecureVaultServer.HandleShare | server/server.py:274-316 | The handler is its atomic steps run alone |
| Server.SecureVaultServer.HandleGetDoc | server/server.py:318-353 | The handler is its atomic steps run alone |
| Server.SecureVaultServer.HandleChangePassword | server/server.py:367-400 | The handler is its atomic steps run alone |
| Server.SecureVaultServer.Dispatch | server/server.py:123-139 | Every request goes to its handler |
| Interleaving.EveryScheduleSafe | server/server.py:143-423 | Under every interleaving: document rows repeat their blob's header and have registered owners, share rows repeat their blob and refer to existing rows, what each thread has seen stays true, and no two requests pass with one nonce |
| Interleaving.HistoryGrows | server/db.py:127-225 | Under every interleaving no account loses or changes its identity keys, no document row changes, no share row disappears and no nonce is forgotten |
| Interleaving.PassingIsFresh | server/session.py:61-72 | A thread gets behind the nonce check only with a nonce nobody used before |
| Interleaving.TurnedAwayFails | server/server.py:404-423 | A request that did not get behind the nonce check ends in an error |
| Interleaving.TurnedAwayChangesNothing | server/server.py:404-423 | None of its steps changed tables or nonces |
| Interleaving.SignatureWasChecked | server/server.py:240-423 | A request past its signature check, change_password included, verified at some earlier moment under the key the server then held for its caller |
| Interleaving.ForgeryConsumesNothing | server/server.py:240-423 | A request that verifies under no key its caller ever held for it fails and consumes nothing, change_password included, whatever runs beside it |
| Interleaving.VerifiesIffGenuine | server/server.py:404-423 | That a request verifies means that its signature solves the equation under the key its caller then has |
| Interleaving.FalseSignatureConsumesNothing | server/server.py:240-423 | Under every interleaving, a request whose signature solves the equation under no key its caller ever held fails and consumes nothing: wrong lengths, halves out of range, other texts and other keys alike |
| Interleaving.ForgedIdentity | server/server.py:404-423 | For requests signed with identity keys, which never change, it is enough that the signature fails under the key at the end |
| Interleaving.ReplayFails | server/server.py:240-423 | Once a request is through, any later request with its nonce fails and leaves tables and nonces alone, at every point of every continuation |
| Interleaving.DocumentsAreSigned | server/server.py:240-272 | Every document row stems from a request that verifies under the owner's identity key |
| Interleaving.SharesAreSigned | server/server.py:274-316 | Every share row stems from a request that verifies under the sender's identity key |
| Interleaving.OnlyReadersGetDocuments | server/server.py:318-353 | Under every interleaving, whoever is answered with a document signed the request, and owns the document or holds a share of it; and the answer is the stored blob |
| Interleaving.PasswordRace | server/server.py:378-394 | A schedule on which two password changes signed with the same old key are both accepted |
| Interleaving.PasswordSequence | server/server.py:378-394 | On the serial schedule the second is accepted if and only if it verifies under the key the first one set |
| Passwords.PasswordOutcome | server/server.py:367-400 | Under every schedule, a change_password request that ended was accepted if and only if its proof verified under the login key at its look-up, its nonce was new at its nonce check and its parameters fit |
| Passwords.TwoRequests | server/server.py:378-394 | Of two requests that verify under one login key before either has begun, whenever each of them arrives and under every schedule, each is accepted exactly when the other has not updated before its look-up or it verifies under the other's new key |
| Passwords.BothAccepted | server/server.py:378-394 | When both are accepted, and that at least one always is |
| Passwords.CredentialsStem | server/server.py:367-400 | Under every schedule, a changed login key, salt or parameter set is that of an accepted change_password request |
| Passwords.AccountStays | server/server.py:367-400 | Between two moments without an accepted change, an account's row stays the same |
| Exchanges.Authentication | server/server.py:404-423 | A request acts if and only if its caller is registered, its signature holds and its nonce is new; otherwise nothing changes |
| Exchanges.AdmissibleIff | server/server.py:404-423 | What admissible means: a registered caller, a signature that solves the equation under the identity key, a new nonce |
| Exchanges.Refusals | server/server.py:376-423 | Why a request is turned away, in the order of the checks; an unknown caller and a wrong proof of change_password get one answer |
| Exchanges.UploadEffect | server/server.py:240-272 | When an upload is accepted, and the one row it then adds |
| Exchanges.ShareEffect | server/server.py:274-316 | When a share is accepted, and the one row it then writes |
| Exchanges.GetDocEffect | server/server.py:318-353 | A document comes back if and only if the request is admissible, the document exists and its reader owns it or holds a share; it is the stored blob, and the share comes along exactly when one is stored; nothing but the nonce changes |
| Exchanges.RegisterEffect | server/server.py:143-163 | When a name is registered; otherwise nothing changes |
| Exchanges.LookUpEffect | server/server.py:214-238 | What the two look-ups return, and for whom; they change nothing |
| Exchanges.ChallengeEffect | server/server.py:165-188 | A challenge is stored and returned for known and unknown names alike |
| Exchanges.ChallengeFields | server/server.py:165-188 | The fields of the challenge, for unknown names with the first 16 bytes of an HMAC of the name under the server's secret as salt |
| Exchanges.PasswordEffect | server/server.py:367-400 | A password change is accepted if and only if the proof verifies, the nonce is new and the new values fit; it touches the caller's salt, parameters and login key and nothing else, and a refusal of fitting parameters changes nothing at all |
| Exchanges.PasswordAdmissibleIff | server/server.py:367-400 | The same under the login key, with a salt of 16 bytes, a key of 65 and parameters of 64 bits |
| Exchanges.LoginEffect | server/server.py:190-212 | A login succeeds if and only if the pending challenge is fresh and its signature verifies under the login key |
| Exchanges.LoginIff | server/server.py:190-212 | A login succeeds if and only if the name is known, its pending challenge is at most 60 seconds old and the response solves the equation for it under the login key; every other answer is the same, and the challenge is gone |
| TrustStore.TrustStore.constructor | client/trust_store.py:80-156 | Opening a store loads what was saved |
| TrustStore.TrustStore.RecordFirstContact | client/trust_store.py:94-106 | A new contact is stored unverified and saved; a known one is refused |
| TrustStore.TrustStore.Check | client/trust_store.py:108-122 | Match, mismatch or unknown, without any change |
| TrustStore.TrustStore.MarkVerified | client/trust_store.py:124-135 | Only the status changes, and it is saved |
| TrustStore.FingerprintsPinned | client/trust_store.py:94-166 | Over every sequence of calls and reopenings, a recorded fingerprint never changes and a verified contact stays verified |
| TrustStore.OneFingerprint | client/client.py:469-501 | All bundles ever returned for a contact have one fingerprint |
| TrustStore.SwapRefused | client/client.py:491-501 | After a bundle was accepted, another fingerprint is refused whatever the user answers |
| TrustStore.StoreIsTold | client/trust_store.py:61-166 | Over every sequence of calls and reopenings: a contact is in the store if and only if some call offered its keys, under the hash of both keys of the first such call, and is verified if and only if a later call marked it |
| Keystore.KeyFile.SaveKeys | client/keystore.py:34-105 | The file is replaced by the sealed keys, or left alone when an error is raised, a path that cannot be written included |
| Keystore.KeyFile.LoadKeys | client/keystore.py:47-76 | What is read from the file, with the order of the checks |
| Keystore.KeyFile.RewrapKeys | client/keystore.py:79-105 | Load and save under the new key |
| Keystore.OpenedIffSealed | client/keystore.py:34-94 | A file opens to a pair of keys if and only if it is what saving those keys would write |
| Keystore.SealedOpens | client/keystore.py:34-76 | What is saved loads back to the same keys |
| Keystore.SealedDefined | client/keystore.py:34-44 | Saving works exactly for 32-byte keys and scalars of at most 256 bits |
| Keystore.FileBytes | client/keystore.py:23-44 | The 97 bytes that are written: "SVKS", 1, the nonce, and both scalars in 32 bytes each, sealed with the first five bytes as associated data |
| Keystore.RefusedFile | client/keystore.py:47-76 | Why a file is refused, in the order of the checks |
| Keystore.KeysSurvive | client/keystore.py:79-105 | Any number of password changes, those that cannot be written included, keeps the identity keys, under the last password that was written |
| Envelopes.SignedBytesVerify | crypto/ecdsa.py:87-163 | An encoded signature verifies under the signer's encoded key |
| Envelopes.SignBytesIff | crypto/ecdsa.py:87-163 | An encoded signature exists exactly for the inputs of Ecdsa.SignIff |
| Envelopes.VerifyBytesIff | crypto/ecdsa.py:116-163 | The client's signature check accepts exactly the genuine signatures |
| Envelopes.InfoText | client/client.py:459-460 | What a wrapped key is bound to: "wrap|", the identifier, "|to=", the recipient, "|from=", the sender |
| Envelopes.MadeShareOpens | client/client.py:306-465 | A share made for a reader unpacks to its fields, unwraps under the reader's scalar to the file key, and carries a valid signature of the sender |
| Envelopes.MakeShareIff | client/client.py:306-385 | When a share can be made, in terms of lengths, ranges, names, the reader's key and the signature, and that its size is 257 bytes plus the two names |
| Envelopes.MadeDocumentOpens | client/client.py:268-286 | An uploaded blob unpacks and opens under its file key to the uploaded bytes with a valid signature of the owner |
| Envelopes.MakeDocumentIff | client/client.py:268-286 | When a document can be made, in terms of its inputs, and that its size is 158 bytes plus content, owner and file name |
| Client.DerivedFrom | client/client.py:116-128 | The login scalar comes from HMAC under "auth", modulo N - 1 and one more, and the key of the file from HMAC under "kek" |
| Client.SecureVaultClient.Signup | client/client.py:132-157 | Server, key file and result after the call, for all inputs, a key file that cannot be written included |
| Client.SecureVaultClient.Rpc | client/client.py:92-102 | A request whose frame is too long is not sent, and a reply whose frame is too long is an error although the server has acted |
| Client.SecureVaultClient.Login | client/client.py:159-198 | Server, account and trust store after the call; a failed login leaves the client as it was |
| Client.SecureVaultClient.Logout | client/client.py:200-206 | Account and trust store are cleared |
| Client.SecureVaultClient.ChangePassword | client/client.py:210-259 | Server, key file and result after the call |
| Client.SecureVaultClient.Upload | client/client.py:263-304 | Server and result after document and self-share, frames that are too long included |
| Client.SecureVaultClient.PostShare | client/client.py:361-393 | Server and result after sending one share |
| Client.SecureVaultClient.Fetch | client/client.py:439-454 | Server and result of the GET_DOC round trip, frames that are too long included |
| Client.SecureVaultClient.GetVerifiedPubkey | client/client.py:469-501 | Trust store, its file and the returned keys; the server is unchanged |
| Client.SecureVaultClient.Share | client/client.py:344-393 | Server, trust store and result |
| Client.SecureVaultClient.Download | client/client.py:397-437 | Server, trust store and what is delivered, a path that cannot be written included |
| Client.SecureVaultClient.MarkContactVerified | client/client.py:503-507 | The contact is promoted in the store and its file |
| Downloads.DownloadIff | client/client.py:397-437 | Whatever the server holds and answers: a download delivers bytes and a name if and only if the share names the reader and the ciphertext, its packed body with a zeroed signature is genuinely signed under the keys trusted for its sender, the key it wraps opens the document, and the content's hash is genuinely signed under the keys trusted for the owner |
| Downloads.ContactKeysIff | client/client.py:469-501 | Which keys are trusted for a name: the own ones, or the server's when the hash of both is the recorded one, or when the name is new and the user consents |
| Downloads.UnwrapsIff | client/client.py:456-465 | A share unwraps to a file key if and only if GCM opens it to that under the shared key bound to document and names |
| Downloads.OpensIff | client/client.py:421-427 | A document opens to a payload if and only if GCM opens its ciphertext, with the raw header as associated data, to the payload's bytes |
| Downloads.ShareMade | client/client.py:306-385 | The bytes of every share sent: ephemeral key, file key sealed under a zero nonce, and the sender's genuine signature of the body |
| Downloads.DocumentMade | client/client.py:268-286 | The bytes of every document sent: the payload, with a genuine signature of the content's hash, sealed under a zero nonce with the header as associated data |
| EndToEnd.SendShareKeeps | client/client.py:306-393 | Sending a share of a key one knows keeps all rows good, accepted or not |
| EndToEnd.UploadKeeps | client/client.py:263-304 | An upload, complete or cut short, keeps all rows good |
| EndToEnd.ContactKeysGood | client/client.py:469-501 | Against an honest server a known contact is never refused, and the keys returned are the server's |
| EndToEnd.RecoverGood | client/client.py:352-360 | A reader's own copy always yields the file key chosen at upload |
| EndToEnd.ShareKeeps | client/client.py:344-393 | Sharing, complete or not, keeps all rows good |
| EndToEnd.FetchIff | client/client.py:439-454 | A document is fetched if and only if the request can be signed, its nonce is new, document and share exist, and both the request's and the reply's frame fit |
| EndToEnd.DownloadCorrect | client/client.py:397-465 | A download completes if and only if the reader can fetch the document, trusts sender and owner and can write to the given path, and then delivers the uploaded bytes and the owner |
| EndToEnd.SignUpTables | client/client.py:132-157 | After a completed sign-up the server's keys belong to the scalars in the key file, which the password opens |
| EndToEnd.SwitchTables | client/client.py:210-259 | After a completed password change the same scalars open under the new password |
| Runs.RunSound | client/client.py:132-507 | After every honest run every share, document, key file, session and trust store is right |
| Runs.RunExtends | client/client.py:132-507 | Identity keys, documents and what was chosen at upload never change along a run |
| Runs.EveryShareOpens | client/client.py:344-465 | Every stored share unwraps under its recipient's scalar to its document's file key, along chains of any length and after replacement |
| Runs.SharesCarryUploadKey | client/client.py:263-465 | That key is the one drawn by the upload call that stored the document |
| Runs.EveryDownload | client/client.py:397-465 | At any point of a run, when a download completes, the write to the given path included, and what it delivers |
| Runs.UploadedIsDownloaded | client/client.py:263-465 | Whatever lies between a completed upload and a completed download of that document, the reader gets the uploaded bytes and the uploader's name |
| Overlap.UploadIsItsRequests | client/client.py:263-304 | An upload is its two requests in a row, with the same result |
| Overlap.ShareIsItsRequests | client/client.py:344-393 | A share is its requests in a row, with the same result, ending early where the call does |
| Overlap.DownloadIsItsRequests | client/client.py:397-437 | A download is its requests in a row, with the same result |
| Overlap.Undisturbed | server/server.py:101-139 | When nobody interrupts, sending a request, the steps of its thread and receiving the reply make one request served as a whole |
| Overlap.OverlappedRunSound | client/client.py:132-507 | When the requests of any number of uploads, shares and downloads overlap and the atomic steps of the server's threads interleave in any order, everything stored stays right, and so does what each client holds between its requests and what each thread has seen |
| Overlap.DeliveredIsOriginal | client/client.py:397-465 | A download that delivers, whatever steps came between its own, delivers the bytes and the owner that the truth holds |
| Overlap.DeliveredIsUploaded | client/client.py:397-465 | So it delivers the bytes and the owner of the upload that stored the document, and there is such an upload |
| Overlap.OverlappedHistory | client/client.py:132-507 | Identity keys, documents and what was chosen at upload never change along an overlapped run |
| Overlap.TruthIsStored | client/client.py:263-304 | Every document that the truth knows was stored by an upload of the run, with that upload's owner, file key and bytes |
| Overlap.StoredIsTrue | client/client.py:263-304 | What an upload stored stays in the truth to the end of the run |
| Overlap.ConfirmedIsStored | client/client.py:290-299 | When a client is told that its document was accepted, some event of the run has stored it with the choices of that upload |
| Overlap.CompletedIsStored | client/client.py:263-304 | A whole upload that completes stores its document |
| Overlap.EveryOverlappedShareOpens | client/client.py:344-465 | Under every such run each stored share unwraps under its recipient's scalar to the file key the truth holds for its document |
| Overlap.SharesCarryStoredKey | client/client.py:263-465 | That is the file key drawn by the upload that stored the document |
| Completion.SendShareIff | client/client.py:361-393 | The sending of a share completes if and only if its parts fit, share and request can be signed, the nonce is new, the time fits and the frame fits |
| Completion.ShareCompletes | client/client.py:344-393 | share completes if and only if the document can be fetched, the recipient is trusted and the new share is ready |
| Completion.UploadCompletes | client/client.py:263-304 | upload completes if and only if names, content and times fit, everything can be signed, both nonces are new and differ, the identifier is unused and both frames fit |
| Completion.UploadedIsFetched | client/client.py:263-454 | After an upload that completed, the owner can fetch the document if and only if the request is signed, new and short enough and the reply with document and share fits |
| Completion.TooLongToReturn | common/wire.py:36-39 | The sizes at which an UPLOAD frame fits and the DOC frame that answers for it does not |
| Completion.UploadedNeverFetched | client/client.py:263-454 | At those sizes an upload completes and no fetch by its owner ever does |
| Completion.LogInCompletes | client/client.py:159-198 | With the current password, after any number of changes, login completes if and only if the challenge can be signed and is answered within 60 seconds, and then yields the identity keys of the sign-up |
| Completion.SignUpWritesFirst | client/client.py:132-157 | Without a password that encodes and a key file that can be written, sign-up fails and changes nothing; otherwise the key file is replaced in any case, and sign-up is accepted if and only if the salt has 16 bytes and the name fits, encodes and is new |
| Completion.SwitchWritesFirst | client/client.py:210-259 | For any file and passwords: a password change stops before the file is touched, or rewraps the file and completes if and only if the server accepts the request; a refused request leaves the server as it was |
| Completion.SwitchCompletes | client/client.py:210-259 | With the right old password, after any honest run: when the file is rewrapped, when the change then completes, and that otherwise the server is unchanged while the file opens under the new password |
| Completion.SwitchLeavesApart | client/client.py:248-259 | A used request nonce makes the call fail with the file rewrapped and the server unchanged |
| ForeignShares.ReplacesIff | server/server.py:274-316 | Exactly which requests, in terms of what the server reads before it stores anything, are accepted as shares, and the one row each replaces |
| ForeignShares.StrangerDenied | server/server.py:341-353 | A request for an existing document that may act is denied exactly to those who neither own it nor hold a share |
| ForeignShares.RequestKeeps | server/server.py:143-400 | Whatever request is served, identity keys and documents stay, and so does every share row except the one an accepted SHARE replaces |
| ForeignShares.GoodShareStays | server/server.py:274-316 | Which requests, whoever sends them, leave a good share good: all but those that replace it by a share that does not unwrap to the file key, is not signed by its sender or names another ciphertext |
| ForeignShares.SentShareStays | client/client.py:361-393 | After any registered user sent a share to a reader who had a good one, the reader's share is good if and only if the request was not ready to be accepted, or the sender chose the file key of the upload and the hash of the stored ciphertext |
| ForeignShares.ForeignShare | server/server.py:305-316 | A share with a wrong hash from a user who neither owns nor can read the document is accepted whenever it is well made, and replaces the reader's good share |
| ForeignShares.SpoiledDownload | client/client.py:397-429 | With a share that names another ciphertext or does not unwrap, every download fails |
| ForeignShares.SpoiledShare | client/client.py:344-360 | And so does every share |
| ForeignShares.ForeignShareBlocks | server/server.py:305-316 | A download that would have completed fails after such a share |

## Left out

- GenerateK: that the reroll loop of RFC 6979 ends is only probable, so the method is called with the number of passes it ends after. `SignedVerifies` holds for any k in [1, N-1].
- Argon2id: an arbitrary function of password, salt and parameters. HMAC and the two derived keys are computed.
- JSON and base64: requests are modelled with their fields already decoded, and frames of requests with their exact lengths; in `Wire` a frame's payload goes through a codec that is assumed to read back what it prints. Error replies have no length, because a long one is an error as well.
- The order of parsing errors inside one malformed request, and the wording of error messages: all of them are errors without effect. A canonical string that does not encode is counted as a failed signature.
- Messages of 2^61 bytes and more: `Sha256` raises OverflowError there; above the hash layer the digest is used as a total function, which the size limits of the formats make unreachable.
- Key generation: scalars are inputs in [1, N-1]; the rejection loops are not modelled.
- `list_docs`, `dump_stats`, `format_fingerprint`, type checks and the dispatch of unknown message types: simple members only.
- Sockets beyond the receiving loop, thread creation, the command line, the graphical interface, the proxy and the demos.
- EveryScheduleSafe: used nonces live in memory, so this covers one lifetime of the server process, started on any tables that are right.
- RunSound: one server, and each user has one key file, one trust file and at most one session. User names that make two file paths coincide are not modelled.
- OverlappedRunSound: sign-ups, logins and password changes happen as wholes between the steps of the others; how password changes overlap is in `Passwords`, how sign-ups and logins do in `Interleaving`.
- RunSound: sign-ups and password changes that the server refuses, and logins or password changes with a wrong password, are not part of a run: with a wrong password only the unforgeability of the seal would help.
- Corrupt trust files and crashes while a file is replaced.
- Secrecy, constant time and the indistinguishability of the pretended salt: not functional properties.
