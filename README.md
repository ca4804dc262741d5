# adobe-cred in Dafny

A model of the core of adobe-cred. The repository attacks the 2013 Adobe
credential dump. The dump stores passwords encrypted with Triple-DES in ECB
mode under one unknown key, so the project does three things:

- it reads the dump into user records;
- it implements DES and Triple-DES on 64-bit words;
- it searches for the key with a known plaintext/ciphertext block. The
  plaintext is "password" and the ciphertext is 2fca9b003de39778.

The model is split into one module per source file, plus two shared modules:

| module | file | models |
|---|---|---|
| `Des` | des_cipher.dfy | des/cipher.go: `Cipher`, `NewCipher`, `EncryptBlock`, `DecryptBlock`, `cryptBlock`, `TripleDESCipher`, `NewTripleDESCipher` and its two block methods |
| `DesCrack` | des_crack.dfy | des/crack.go: `Cracker`, `NewCracker`, `CheckKey` |
| `KeyCodec` | key_codec.dfy | bruteforce/key.go: `IntersperseKey`, `CollapseKey` |
| `BruteForce` | bruteforce.dfy | bruteforce/des.go: `desSearchRange` and the range-claiming step of `main` |
| `AsciiSearch` | asciisearch.dfy | cmd/asciisearch/asciisearch.go: `searchASCIIKey`, `unpackParity` |
| `Adobe` | user_reader.dfy | adobe/user_reader.go: `UserReader`, `NewUserReader`, `Read`, `ParseError.Error` |
| `Users` | users.dfy | users.go: `User`, `RowScanner`, `NewRowScanner`, `Row` |
| `Text` | text.dfy | the parts of Go's `strings`, `strconv` and `fmt` that both readers use |
| `Dump` | dump.dfy | the dump layout both readers share |

How each part is modelled:

- **DES.** The permutation tables, the S-box round function, the key schedule
  and `unpack` are not fixed. They are the fields of a `Primitives` value that
  every operation takes. The only assumption is `Valid(p)`: the initial and
  final permutations invert each other. So DES decryption undoing encryption,
  and Triple-DES being encrypt-decrypt-encrypt, are proved for every round
  function and every key schedule. The Go arrays `[16]uint64` and `[3]uint64`
  are values, so they become fixed-length sequences. A `Cipher` is a class
  whose subkeys are written once, by its constructor.
- **Cracker.** `NewCracker` stores the initial permutations of its two
  arguments. `CheckKey` is proved equal to the predicate `Accepts`.
  `AcceptsIffEncrypts` proves that `Accepts` holds exactly when the
  candidate's key schedule encrypts the plaintext to the ciphertext.
  `CheckKey` applies PC1 to its argument itself (des/crack.go:21-23) and
  returns only a `bool`, and the model follows that. The package's own test
  disagrees: des/crack_test.go:12-13 passes a key already through PC1 and
  reads back a key and a flag.
- **Brute force.** The DES decryption of Go's `crypto/des` is a parameter of
  `desSearchRange`: a function from the key bytes and the ciphertext bytes to
  the plaintext bytes. `IsDes` says when such a function is the `Des` model.
  Under it, `AcceptedIffEncrypts` says a counter passes exactly when its key
  encrypts "password" to the fixed ciphertext. The shared cursor and done
  flag that the workers of `main` update under the mutex form the
  `Dispatcher` class. One claim of a range, as written, is its `Claim` method. `ClaimClamped` is the corrected claim (see Findings).
- **ASCII search.** The cracker is a parameter: a verdict on a candidate key.
  The global progress counter `count` is the field of a `Searcher`.
  cmd/asciisearch/asciisearch.go:33 reads two results from `CheckKey`, but
  des/crack.go:21 returns one `bool`. The model takes the verdict as that
  `bool` and returns the candidate that was accepted as the key. The call at
  cmd/asciisearch/asciisearch.go:21 passes `(plain, cipher)`, while
  des/crack.go:14 declares `NewCracker(cipher, plain)`. The search only sees
  the verdict, so the model of the search does not depend on that order.
- **Readers.** The input is a sequence of `'\n'`-terminated lines, without
  their `'\n'`, plus a cursor. `ReadString('\n')` returns a final fragment
  that has no `'\n'` together with `io.EOF`. Both readers then return the
  error and drop the fragment. So the fragment is not part of the sequence,
  and reaching the end of the sequence is `io.EOF`. Each reader's step is a
  function of the lines and the cursor (`Adobe.ReadSpec`, `Users.RowSpec`).
  The methods are proved to take exactly that step. The lemmas state what the
  step promises.

## Model

| member | source | states |
|---|---|---|
| Des.FinalPermutationInjective | des/cipher.go:51-53 | under `Valid`, the final permutation maps two blocks to the same output only when they are equal |
| Des.Join | des/cipher.go:52 | the block assembled from two halves has exactly those halves as its high and low words |
| Des.JoinHalves | des/cipher.go:33 | splitting a block into uint32 halves and joining them gives the block back |
| Des.RotateLeft1 | des/cipher.go:35-36 | the one-bit left rotation of a half is the bit-vector rotation and is undone by the right rotation |
| Des.RotateRight1 | des/cipher.go:48-49 | the shift-or expression is the one-bit right rotation of the half |
| Des.RotateLeftAfterRight | des/cipher.go:35-36 | rotating right and then left restores the half |
| Des.FeistelUndo | des/cipher.go:38-46 | two rounds run on their exchanged output with the subkeys exchanged give back the exchanged input, for any round function |
| Des.SwapReverseTwice | des/cipher.go:38-46 | reversing the schedule and exchanging the subkeys of each pair, done twice, gives the schedule back, so the decryption order and the encryption order undo each other |
| Des.RoundsUndo | des/cipher.go:38-46 | any sequence of double-rounds is inverted by the reversed, exchanged sequence run on the exchanged output |
| Des.DecryptPairsReversed | des/cipher.go:39-45 | the decryption pairs are the encryption pairs reversed and exchanged, and the other way round |
| Des.FullPass | des/cipher.go:38-46 | eight iterations of the loop run the eight pairs of the pass |
| Des.NetworkUndo | des/cipher.go:33-52 | the part of cryptBlock between the permutations is inverted by the same part run with the reversed schedule |
| Des.DecryptEncrypt | des/cipher.go:23-29 | for every subkey schedule, DecryptBlock undoes EncryptBlock |
| Des.EncryptDecrypt | des/cipher.go:23-29 | for every subkey schedule, EncryptBlock undoes DecryptBlock |
| Des.RunPass | des/cipher.go:38-46 | the round loop computes the eight double-rounds of the pass in its direction |
| Des.Cipher.NewCipher | des/cipher.go:16-21 | the new cipher holds the subkeys the key schedule derives from the key |
| Des.Cipher.EncryptBlock | des/cipher.go:23-25 | the result is the encryption of the block, and decrypting it gives the block back |
| Des.Cipher.DecryptBlock | des/cipher.go:27-29 | the result is the decryption of the block, and encrypting it gives the block back |
| Des.Cipher.CryptBlock | des/cipher.go:31-54 | the result is `Crypt` of the block in the requested direction, the function whose two directions DecryptEncrypt and EncryptDecrypt prove inverse |
| Des.TripleCryptResult | des/cipher.go:87-91 | the last steps of the Triple-DES methods produce the Triple-DES function of the block |
| Des.NetworkThrice | des/cipher.go:70-92 | three DES networks in a row equal the Triple-DES network, whose inner rotations cancel |
| Des.TripleEncryptIsEde | des/cipher.go:70-92 | Triple-DES encryption equals encrypting with key 1, decrypting with key 2 and encrypting with key 3 |
| Des.TripleDecryptIsDed | des/cipher.go:94-116 | Triple-DES decryption equals decrypting with key 3, encrypting with key 2 and decrypting with key 1 |
| Des.TripleDecryptEncrypt | des/cipher.go:70-116 | Triple-DES decryption and encryption undo each other |
| Des.TripleWithOneKey | des/cipher.go:61-116 | with the same key three times, Triple-DES is single DES in both directions |
| Des.TripleDESCipher.NewTripleDESCipher | des/cipher.go:61-68 | the three ciphers hold the schedules of the three keys in order |
| Des.TripleDESCipher.EncryptBlock | des/cipher.go:70-92 | the result is the Triple-DES encryption of the block, which is encrypt-decrypt-encrypt with the three subkey schedules |
| Des.TripleDESCipher.DecryptBlock | des/cipher.go:94-116 | the result is the Triple-DES decryption of the block, which is decrypt-encrypt-decrypt with the schedules in reverse order |
| DesCrack.SplitPermutedKey | des/crack.go:26-27 | the right half keeps 28 bits, and so does the left half of a 56-bit PC1 output |
| DesCrack.CombineSplit | des/crack.go:26-33 | recombining the two halves gives back the low 60 bits of the PC1 output, hence all of a 56-bit one |
| DesCrack.AcceptsIffEncrypts | des/crack.go:13-54 | a cracker built from a ciphertext and a plaintext accepts a key exactly when the key's schedule encrypts the plaintext to the ciphertext |
| DesCrack.AcceptsIffCipherEncrypts | des/crack.go:21-54 | where that schedule is the cipher's own, acceptance is the same as `NewCipher(key).EncryptBlock(plain) == cipher` |
| DesCrack.Cracker.NewCracker | des/crack.go:13-19 | the cracker stores the initial permutations of the ciphertext and the plaintext |
| DesCrack.Cracker.CheckKey | des/crack.go:21-54 | the verdict is exactly `Accepts`: the rounds of the candidate's schedule take the stored plaintext to the stored ciphertext |
| KeyCodec.IntersperseKey | bruteforce/key.go:7-16 | every parity bit of the spread key is zero |
| KeyCodec.CollapseKey | bruteforce/key.go:20-29 | the collapsed key fits in 56 bits |
| KeyCodec.IntersperseGroup | bruteforce/key.go:7-16 | group j of the 56-bit key becomes the seven key bits of byte j |
| KeyCodec.CollapseGroup | bruteforce/key.go:20-29 | the seven key bits of byte j become group j of the 56-bit key |
| KeyCodec.CollapseIntersperse | bruteforce/key.go:18-29 | CollapseKey inverts IntersperseKey on every 56-bit key |
| KeyCodec.IntersperseCollapse | bruteforce/key_test.go:12-18 | spreading a collapsed key gives the original key with its parity bits cleared |
| KeyCodec.CollapseIgnoresParity | bruteforce/key.go:3-6 | parity bits do not affect the collapsed key |
| KeyCodec.IntersperseIgnoresHighBits | bruteforce/key.go:3-16 | bits 56 to 63 of the counter do not affect the spread key |
| BruteForce.BigEndian | bruteforce/des.go:81 | PutUint64 writes eight bytes that Uint64 reads back as the value |
| BruteForce.BigEndianOfUint64 | bruteforce/des.go:81 | writing back the value read from eight bytes gives the same bytes |
| BruteForce.BigEndianMatches | bruteforce/des.go:84 | comparing the bytes written for a value with a buffer is the same as comparing the value with what the buffer holds |
| BruteForce.AcceptedIffEncrypts | bruteforce/des.go:80-84 | when the decryption is DES, a counter passes exactly when its key encrypts "password" to the fixed ciphertext |
| BruteForce.FirstAccepted | bruteforce/des.go:79-88 | the result is the least passing counter of the range, and no result means none passes |
| BruteForce.DesSearchRange | bruteforce/des.go:76-89 | returns the least passing counter of [min, max) with ok, or (0, false), and the error is always nil |
| BruteForce.AddWrap | bruteforce/des.go:47 | k+step on uint64 wraps modulo 2^64 |
| BruteForce.NextClaim | bruteforce/des.go:42-49 | no range when the cursor is at end or the key was found; otherwise [k, k+step mod 2^64) |
| BruteForce.DoneStopsClaims | bruteforce/des.go:43-61 | once done is set, no more ranges are handed out |
| BruteForce.CursorAfterIs | bruteforce/des.go:47-48 | after n claims the cursor is start + n*step modulo 2^64 |
| BruteForce.CursorReachesEnd | bruteforce/des.go:43-48 | the workers stop after n claims exactly when n*step and end-start agree modulo 2^64 |
| BruteForce.ClaimOverrunsEnd | bruteforce/des.go:43-48 | with start 0, end 3 and step 2, a claim covers key 3, which lies past end, and the cursor never equals end |
| BruteForce.ClampedClaim | bruteforce/des.go:43-48 | the corrected claim: a non-empty range from the cursor that never passes end, and none once the cursor has reached end |
| BruteForce.ClampedRangesTile | bruteforce/des.go:43-48 | the corrected claims tile [k, end): they start at k, are non-empty, are contiguous, and the last one ends at end |
| BruteForce.ClampedRangesCover | bruteforce/des.go:43-48 | under the corrected claims, every key of [k, end) lies in some claimed range |
| BruteForce.ClampedRangesDisjoint | bruteforce/des.go:43-48 | the corrected claims do not overlap: each range ends at or before the start of every later one, so a key is tried by one worker only |
| BruteForce.Dispatcher.constructor | bruteforce/des.go:29-30 | the cursor starts at start and done is false |
| BruteForce.Dispatcher.Claim | bruteforce/des.go:42-49 | a claim as written hands out `NextClaim` and moves the cursor to the end of the range |
| BruteForce.Dispatcher.ClaimClamped | bruteforce/des.go:42-49 | the corrected claim hands out `ClampedClaim` and moves the cursor to the end of the range |
| BruteForce.Dispatcher.MarkFound | bruteforce/des.go:59-61 | done is set and the cursor is unchanged |
| AsciiSearch.UnpackParity | cmd/asciisearch/asciisearch.go:50-61 | unpackParity computes the same key as IntersperseKey |
| AsciiSearch.FirstIn | cmd/asciisearch/asciisearch.go:30-46 | the index of the first accepted candidate is at most the number of candidates |
| AsciiSearch.FirstInMeaning | cmd/asciisearch/asciisearch.go:33-36 | every candidate before that index is rejected, and the one at it is accepted |
| AsciiSearch.SearchMeaning | cmd/asciisearch/asciisearch.go:28-48 | the search rejects exactly the candidates before the first accepted one in enumeration order, succeeds iff one is accepted, and returns that one |
| AsciiSearch.SearchBelowMeaning | cmd/asciisearch/asciisearch.go:31-45 | the same, for one group value at one level |
| AsciiSearch.SearchOutcome | cmd/asciisearch/asciisearch.go:28-48 | a returned key is an accepted candidate; a failure means every candidate was rejected; every candidate counted as rejected comes before the accepted one |
| AsciiSearch.Place | cmd/asciisearch/asciisearch.go:30-31 | placing a printable group value at level i keeps every group below i+7 in range |
| AsciiSearch.UnpackPrintable | cmd/asciisearch/asciisearch.go:50-61 | a key whose eight groups are in range unpacks to eight even printable ASCII bytes |
| AsciiSearch.LeavesInRange | cmd/asciisearch/asciisearch.go:30-45 | every candidate below a good prefix has all eight groups in range |
| AsciiSearch.SubtreeInRange | cmd/asciisearch/asciisearch.go:31-45 | the same for the candidates under one group value |
| AsciiSearch.AsciiCandidates | cmd/asciisearch/asciisearch.go:22 | the search started from main only tries keys that unpack to printable ASCII |
| AsciiSearch.LeavesComplete | cmd/asciisearch/asciisearch.go:30-45 | every key whose eight groups are in range, that agrees with the prefix below level i and whose group at i is at least b, is enumerated from b on |
| AsciiSearch.SubtreeComplete | cmd/asciisearch/asciisearch.go:31-45 | the same for the candidates under the key's own group value at level i |
| AsciiSearch.LeavesShape | cmd/asciisearch/asciisearch.go:30-31 | every candidate enumerated from b on agrees with the prefix below level i and has a group of at least b at i |
| AsciiSearch.SubtreeShape | cmd/asciisearch/asciisearch.go:31-45 | every candidate under group value b at level i agrees with the prefix below i and has group b at i |
| AsciiSearch.LeavesDistinct | cmd/asciisearch/asciisearch.go:30-45 | no candidate is enumerated twice, so the counter counts each rejected key once |
| AsciiSearch.SubtreeDistinct | cmd/asciisearch/asciisearch.go:31-45 | the same under one group value |
| AsciiSearch.PrintableGroups | cmd/asciisearch/asciisearch.go:50-61 | a 56-bit key that unpacks to eight even printable ASCII bytes has every group in range |
| AsciiSearch.AsciiKeySpace | cmd/asciisearch/asciisearch.go:22 | the search main starts enumerates a key iff it is below 2^56 and unpacks to eight even printable ASCII bytes, and each such key once |
| AsciiSearch.AsciiSearchComplete | cmd/asciisearch/asciisearch.go:22-25 | when the search fails the cracker rejects every 56-bit key that unpacks to printable ASCII; when it succeeds the key returned is such a key and is accepted |
| AsciiSearch.Searcher.constructor | cmd/asciisearch/asciisearch.go:15 | count starts at 0 |
| AsciiSearch.Searcher.SearchAsciiKey | cmd/asciisearch/asciisearch.go:28-48 | ok is whether the search finds a key, key is the one found (0 otherwise), and count grows by the number of rejected candidates |
| AsciiSearch.Searcher.SearchGroup | cmd/asciisearch/asciisearch.go:31-45 | one iteration of the loop: the leaf verdict at level 49, otherwise the recursive search one level deeper |
| Text.FindFrom | adobe/user_reader.go:62 | the index found is the first occurrence of the separator at or after i, and none means there is no occurrence |
| Text.JoinSplit | adobe/user_reader.go:61-71 | joining the pieces of a split with the separator gives back the string |
| Text.JoinAppend | adobe/user_reader.go:69 | joining two non-empty runs of pieces puts one separator between them |
| Text.SplitPiecesFree | adobe/user_reader.go:62 | no piece of a split contains the separator |
| Text.Digits | adobe/user_reader.go:44 | %d prints at least one decimal digit |
| Text.DigitsValue | adobe/user_reader.go:44 | the digits printed for m are worth m |
| Text.ScanSound | adobe/user_reader.go:39 | whatever the digit scan accepts is all digits, and its value |
| Text.AtoiItoa | adobe/user_reader.go:39-46 | Atoi parses back what %d prints, for every 64-bit int |
| Text.ItoaInjective | adobe/user_reader.go:44 | %d prints different ints differently |
| Text.AtoiSound | adobe/user_reader.go:39-42 | Atoi accepts only an optional sign followed by digits, and returns their value |
| Dump.NextNonBlank | adobe/user_reader.go:26-34 | the first non-blank line at or after pos, every line skipped being blank |
| Dump.Body | adobe/user_reader.go:61 | the body followed by "\|--" is the row |
| Dump.Columns | adobe/user_reader.go:66-71 | a row of at least five pieces yields exactly five columns |
| Dump.ColumnsJoin | adobe/user_reader.go:66-71 | the first four columns are the first four pieces, and joining the columns equals joining the pieces |
| Dump.ColumnsOfBody | adobe/user_reader.go:61-71 | the columns of a body: the first four are free of "-\|-", and joined they give back the body |
| Adobe.ErrorText | adobe/user_reader.go:83-88 | the message ends with ": " and the text of the wrapped error |
| Adobe.ErrorTextHead | adobe/user_reader.go:83-88 | the message names "record total" for record -1, and the record number otherwise, then the line |
| Adobe.TrailerSpec | adobe/user_reader.go:38-46 | a trailer ends the read: io.EOF, or an error about the total (record -1); the cursor does not move |
| Adobe.JoinSpec | adobe/user_reader.go:49-58 | joining consumes one more line, counting it, and reports EOF exactly when there is none |
| Adobe.RecordSpec | adobe/user_reader.go:61-73 | splitting does not move the cursor, and record grows by one exactly when a record is returned |
| Adobe.ReadCountsLines | adobe/user_reader.go:26-51 | line counts every physical line consumed, plus the read that met the end; the cursor never moves back |
| Adobe.ReadCountsRecords | adobe/user_reader.go:72 | record grows by one on a record and stays put otherwise |
| Adobe.ReadEndOfInput | adobe/user_reader.go:29-46 | running out of lines is a ParseError with EOF; io.EOF comes only from a trailer whose count equals the records read |
| Adobe.ReadTrailer | adobe/user_reader.go:36-47 | a trailer line is consumed and ends the read with io.EOF or an error about the total |
| Adobe.ReadOwnTrailer | adobe/user_reader.go:38-46 | the trailer "N rows selected." for the N records read ends the reading with io.EOF |
| Adobe.ReadJoins | adobe/user_reader.go:49-58 | an unterminated line is joined with exactly one more line; a missing one is EOF, a still-unterminated join is "unterminated row" on the second line |
| Adobe.ReadRecordShape | adobe/user_reader.go:61-73 | a record has five columns, the first four free of "-\|-", which joined and followed by "\|--" give back the row read |
| Adobe.ReadTooFewColumns | adobe/user_reader.go:61-65 | a row on one line fails exactly when it splits into fewer than five pieces, with "only N columns" |
| Adobe.ReadJoinedTooFewColumns | adobe/user_reader.go:49-65 | a row joined from two lines fails exactly when it splits into fewer than five pieces, with "only N columns" on the second line |
| Adobe.UserReader.constructor | adobe/user_reader.go:19-22 | a new reader is at the first line with both counters 0 |
| Adobe.UserReader.Read | adobe/user_reader.go:25-74 | one call returns the result of `ReadSpec` and leaves the reader at its cursor |
| Adobe.UserReader.ReadTotal | adobe/user_reader.go:38-47 | the trailer branch returns the result of `TrailerSpec` |
| Adobe.UserReader.ReadColumns | adobe/user_reader.go:61-73 | the split branch returns the result of `RecordSpec`, keeping the line counter |
| Users.RowErrorText | users.go:84-107 | every error message of Row starts with "users: " |
| Users.CountSpec | users.go:81-89 | a trailer ends the scan with io.EOF or an error about the count; the place does not move |
| Users.JoinRowSpec | users.go:92-101 | joining consumes one more line, counting it, and fails with the read error exactly when there is none |
| Users.UserSpec | users.go:104-116 | splitting does not move the place, Rows grows by one exactly when a User is returned, and the result is never io.EOF |
| Users.RowCountsLines | users.go:70-94 | Line counts every physical line consumed, plus the read that met the end; the scanner never moves back |
| Users.RowCountsRows | users.go:115 | Rows grows by one for each User returned and stays put otherwise |
| Users.RowEndOfInput | users.go:72-89 | Row returns io.EOF exactly when no non-blank line is left or the next one is a trailer whose count equals Rows |
| Users.RowOwnTrailer | users.go:81-89 | the trailer "N rows selected." for the N rows read ends the scan with io.EOF |
| Users.RowJoins | users.go:92-101 | an unterminated line is joined with exactly one more line; a missing one or a still-unterminated join is an error naming the second line |
| Users.RowUserShape | users.go:104-116 | the fields of a User, joined with "-\|-" and followed by "\|--", give back the row read, and only the hint may hold "-\|-" |
| Users.RowTooFewColumns | users.go:104-108 | a row on one line fails exactly when it splits into fewer than five pieces, with "only N columns on line L" |
| Users.RowJoinedTooFewColumns | users.go:92-108 | a row joined from two lines fails exactly when it splits into fewer than five pieces, with "only N columns on line L" naming the second line |
| Users.ReadersAgree | users.go:68-117 | from the same place, Row and adobe's Read return the same records and move to the same place |
| Users.UserAgrees | users.go:104-116 | the same, for the split of one terminated row |
| Users.RowScanner.constructor | users.go:64-66 | a new scanner is at the first line with Rows and Line at 0 |
| Users.RowScanner.Row | users.go:68-117 | one call returns the result of `RowSpec` and leaves the scanner at its place |
| Users.RowScanner.RowCount | users.go:81-89 | the trailer branch returns the result of `CountSpec` |
| Users.RowScanner.RowUser | users.go:104-116 | the split branch returns the result of `UserSpec`, keeping Line |

## Left out

- The tables and helpers of the des package are parameters of the model. This covers the permutation tables, the S-boxes with expansion and P, `feistel`'s box function, `generateSubkeys`, `permuteBlock`, `ksRotate` and `unpack`. Their values and the NIST known-answer vectors of des/des_test.go are not modelled. `Valid` assumes that the initial and final permutations are inverses. It is not proved from the tables.
- `Des.Valid` has no relation to the key schedule. So `DesCrack.AcceptsIffCipherEncrypts` requires, rather than proves, that the cracker's schedule equals `generateSubkeys`.
- `DesCrack.Cracker.CheckKey` returns only the verdict, like des/crack.go:21-53. The recovered key that des/crack_test.go:13 and cmd/asciisearch/asciisearch.go:33 read from it does not exist in the code, and a variant that skips PC1 for a key already permuted (as des/crack_test.go:12-13 calls it) is not modelled.
- Go's `crypto/des` is a parameter of `BruteForce.DesSearchRange`. It is `IsDes` only when it agrees with the `Des` model.
- The goroutines of `main` in bruteforce/des.go, the mutex, the WaitGroup, the flags, the timing and the output are left out. Only one claim step and the done flag are modelled, with no interleaving.
- In cmd/asciisearch/asciisearch.go, `main`'s timing and logging are left out, and so is the progress print every 2^24 keys.
- `AsciiSearch.Searcher.SearchAsciiKey`: `count` is an unbounded integer, while Go's `int` is 64 bits. The search tries at most 48^8 < 2^45 keys, so the count cannot wrap.
- `Adobe.UserReader.Read` and `Users.RowScanner.Row` keep `record`, `line`, `Rows` and `Line` as unbounded integers, not 64-bit ints.
- Reader I/O errors other than end of input are left out. A final fragment without a newline is not part of the line sequence, because both readers drop it (see above).
- `Adobe.Quote` does not escape: `%q` of a count with a quote or a control character would print an escape sequence.
- `Text.JoinSplit` is proved in one direction only. Splitting a joined sequence does not give the pieces back when, for example, a piece contains the separator or ends in "-|" (`["x-|", "y"]` joins to "x-|-|-y", which splits as `["x", "|-y"]`).
- `Adobe.UserReader.Read` is written with two helper methods, `ReadTotal` and `ReadColumns`. `Users.RowScanner.Row` likewise uses `RowCount` and `RowUser`, and `AsciiSearch.Searcher.SearchAsciiKey` uses `SearchGroup` for one loop iteration. This keeps each proof small. Every statement of the Go functions is kept, in order.
- adobe/user.go, adobe/cred.go, adobe/targz_reader.go, main.go, cmd/credread/credread.go and `NewTarGZReader` in users.go are not part of this model.
- `BruteForce.ClampedClaim`: with step 0 the corrected claim hands out all of [k, end) as one range. This is a choice of the corrected model. The code as written hands out empty ranges forever when step is 0, because the cursor never moves.

## Findings

| source | as written | input that shows it | evidently intended | confidence | as-written member | corrected member |
|---|---|---|---|---|---|---|
| bruteforce/des.go:43-48 | a worker stops only when the cursor equals end, and claims [k, k+step) without clamping it to end | start 0, end 3, step 2: the second claim is [2, 4), which tries key 3 past end; the cursor stays even, so it never equals 3, and the workers never stop unless a key is found: they go on claiming forever, the cursor wrapping at 2^64 and cycling through the even values | stop once the cursor reaches or passes end, and cut the last range at end, so that the ranges tile [start, end) | not executed | BruteForce.ClaimOverrunsEnd | BruteForce.ClampedRangesTile |
