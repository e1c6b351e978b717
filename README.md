# BB84 key sifting and the decrypt endpoint, in Dafny

This project models the classical logic of a simulated BB84 quantum key
exchange (Bennett and Brassard, 1984) and the request checks of the file
decryption endpoint that uses the key.

- `qkd_protocol.dfy` (module `QkdProtocol`) models `QKDProtocol` from
  `backend/qkd_protocol.py`:
  - one round: the simulator's bit string is read out in reverse, then only
    the bits whose two bases agree are kept, in index order;
  - `generate_shared_key`: round outputs are appended to a pool until the pool
    reaches `target_bits` or the `max_rounds` budget runs out; a short pool
    raises; otherwise the first `target_bits` bits are packed into bytes, most
    significant bit first.

  The quantum simulator is an oracle. Each round is a `RoundInput`: Alice's
  bits, both parties' bases and the bit string the simulator reported. A small
  gate model on the four BB84 states (|0>, |1>, |+>, |->) gives the ideal
  oracle: a qubit measured in Alice's basis reads out as Alice's bit.
  `GenerateSharedKey` is a method. Its round loop with the early `break` is in
  `AccumulatePool`. Its packing loop is in `PackKeyBits`, whose inner loop is in
  `GroupValue`. Each is proved against the functions `Pool`, `PackBits` and
  `SharedKey`.
- `decrypt_endpoint.dfy` (module `DecryptEndpoint`) models `decrypt_file` from
  `backend/main.py`. It is a pure function from the decoded request and an opaque
  decryptor to a response: a 400 for a bad key length, checked first, then a 400
  for a bad IV length, a 500 for anything that raised, or a download. The
  download's name is `original_name or file.filename` with one trailing `.enc`
  removed.
- `basics.dfy` (module `Basics`) holds `Option`, `Result`, the `Bit` and `Byte`
  types and powers of two.

Behaviour of the code worth knowing:

- `generate_shared_key` accepts any `target_bits`. A short last group becomes
  one byte of its own, not left-aligned, so the key has ceil(`target_bits` / 8)
  bytes (`PackBits`, `PackedByteAt`).
- A non-positive `target_bits` runs one round, if any is allowed, and returns an
  empty key. A non-positive `max_rounds` runs no round (`Budget`).
- `main.py` holds no transfer store. Padding removal is delegated to the
  `cryptography` package (see Left out).

## Model

| member | source | states |
|---|---|---|
| `QkdProtocol.Digit` | backend/qkd_protocol.py:49 | `int(b)` of a bit character is 1 exactly for `'1'` |
| `QkdProtocol.DigitChar` | backend/qkd_protocol.py:49 | the character printed for a bit reads back as that bit |
| `QkdProtocol.Readout` | backend/qkd_protocol.py:48-49 | the read-out has one entry per character of the bit string |
| `QkdProtocol.ReadoutAt` | backend/qkd_protocol.py:49 | `measured[i]` is `int(bitstr[len(bitstr)-1-i])`: the read-out is reversed |
| `QkdProtocol.Render` | backend/qkd_protocol.py:46-48 | the simulator's string for n outcomes is an n-character bit string |
| `QkdProtocol.ReadoutRender` | backend/qkd_protocol.py:46-49 | reading out what the simulator printed recovers every qubit's outcome |
| `QkdProtocol.RenderReadout` | backend/qkd_protocol.py:46-49 | every bit string is the print of its own read-out (the reversal is a bijection) |
| `QkdProtocol.Sift` | backend/qkd_protocol.py:51-52 | sifting keeps at most as many bits as were measured |
| `QkdProtocol.SiftCount` | backend/qkd_protocol.py:51-53 | the number of sifted bits equals the number of positions where `alice_bases[i] == bob_bases[i]` |
| `QkdProtocol.MatchPositions` | backend/qkd_protocol.py:51 | the mask's true positions, strictly increasing, each in range with agreeing bases, and every agreeing position among them |
| `QkdProtocol.SiftSelectsMatches` | backend/qkd_protocol.py:51-52 | sifted bit k is the measured bit at the k-th agreeing position: in order, none dropped or duplicated |
| `QkdProtocol.SiftAgrees` | backend/qkd_protocol.py:51-52 | outcomes at disagreeing positions never influence the sifted bits |
| `QkdProtocol.RunRound` | backend/qkd_protocol.py:36-53 | a round returns one bit per agreeing position, so at most `key_length` bits |
| `QkdProtocol.QubitOutcome` | backend/qkd_protocol.py:20-34 | X then H for Alice, H then measure for Bob: Alice's bit when the bases agree, the simulator's coin otherwise |
| `QkdProtocol.CircuitBitstring` | backend/qkd_protocol.py:41-47 | one shot of the circuit prints a bit string with one character per qubit |
| `QkdProtocol.CircuitIsIdeal` | backend/qkd_protocol.py:20-34 | the circuit's answer reads out as Alice's bit at every agreeing position, whatever the coins |
| `QkdProtocol.IdealRoundKeepsAliceBits` | backend/qkd_protocol.py:36-53 | under an ideal simulator the round's sifted bits are Alice's bits at the agreeing positions |
| `QkdProtocol.Budget` | backend/qkd_protocol.py:57 | `range(max_rounds)` allows `max_rounds` rounds, none when it is not positive |
| `QkdProtocol.RoundOutputs` | backend/qkd_protocol.py:57-58 | output k is the sifted result of round k |
| `QkdProtocol.ConcatStep` | backend/qkd_protocol.py:58 | `pool.extend` appends the round's output after the earlier rounds' bits |
| `QkdProtocol.ConcatPrefix` | backend/qkd_protocol.py:56-60 | the pool after k rounds is a prefix of the pool of all rounds |
| `QkdProtocol.ConcatBound` | backend/qkd_protocol.py:56-60 | k rounds of at most n bits each yield at most n * k bits |
| `QkdProtocol.StopFromIsStop` | backend/qkd_protocol.py:57-60 | scanning rounds in order finds the stopping point |
| `QkdProtocol.RoundsRun` | backend/qkd_protocol.py:57-60 | the loop stops after the first round that brings the pool to the target, or when the budget is spent |
| `QkdProtocol.StopIsUnique` | backend/qkd_protocol.py:57-60 | there is only one such stopping point |
| `QkdProtocol.PoolOfStop` | backend/qkd_protocol.py:56-60 | the pool is the in-order concatenation of the rounds up to the stopping point |
| `QkdProtocol.BitsValue` | backend/qkd_protocol.py:68-70 | the value shifted in from a group of n bits is below 2^n |
| `QkdProtocol.PackBits` | backend/qkd_protocol.py:66-71 | `t` bits pack into ceil(`t`/8) bytes (16 for 128 bits) |
| `QkdProtocol.PackedByteAt` | backend/qkd_protocol.py:67-71 | byte k packs exactly bits 8k up to 8k+8 (fewer for the last group) |
| `QkdProtocol.BitsValueOfEight` | backend/qkd_protocol.py:68-70 | eight shifted-in bits are weighted 128, 64, ..., 1 |
| `QkdProtocol.PackedFullByte` | backend/qkd_protocol.py:67-71 | each full byte k is the sum of `bits[8k+j] * 2^(7-j)` (MSB first) |
| `QkdProtocol.PackExample` | backend/qkd_protocol.py:66-71 | `[1,0,1,1,0,0,0,1]` packs to `0xB1` |
| `QkdProtocol.ToBits` | backend/qkd_protocol.py:66-71 | unpacking a byte gives the asked number of bits |
| `QkdProtocol.ToBitsOfValue` | backend/qkd_protocol.py:68-70 | unpacking a group's value gives the group back |
| `QkdProtocol.ValueOfToBits` | backend/qkd_protocol.py:68-70 | the value of an unpacked byte is the byte |
| `QkdProtocol.UnpackBytes` | backend/qkd_protocol.py:66-71 | a key of b bytes unpacks to 8b bits |
| `QkdProtocol.UnpackPack` | backend/qkd_protocol.py:66-71 | for a multiple of 8 bits, packing loses nothing: unpacking the key gives the bits back |
| `QkdProtocol.PackUnpack` | backend/qkd_protocol.py:66-71 | every key is the packing of its own bits |
| `QkdProtocol.Drop` | backend/qkd_protocol.py:67-69 | the bits from position i on, none past the end (Python slice) |
| `QkdProtocol.PackStep` | backend/qkd_protocol.py:67-71 | one pass of the outer packing loop emits the group at i and moves on to i+8 |
| `QkdProtocol.SharedKey` | backend/qkd_protocol.py:55-72 | a returned key has ceil(`target_bits`/8) bytes, none for a non-positive target |
| `QkdProtocol.PoolShortIffAllShort` | backend/qkd_protocol.py:56-61 | the pool stays short of the target exactly when all the budgeted rounds together are short of it |
| `QkdProtocol.SharedKeyFailsIffShort` | backend/qkd_protocol.py:61-62 | the call raises exactly when all rounds of the budget together yield fewer than `target_bits` bits |
| `QkdProtocol.KeyPacksFirstBits` | backend/qkd_protocol.py:64-71 | on success the key packs exactly the first `target_bits` bits of the rounds in order; the surplus is discarded |
| `QkdProtocol.NoRoundsNoKey` | backend/qkd_protocol.py:57-62 | with `max_rounds = 0` and a positive target the call raises |
| `QkdProtocol.SmallBudgetFails` | backend/qkd_protocol.py:56-62 | when the budgeted number of rounds (`max_rounds`, at least 0) times `key_length` is below `target_bits`, the call raises whatever the random draws |
| `QkdProtocol.DefaultKeyIs16Bytes` | backend/main.py:20 | the key endpoint's 128-bit request yields 16 bytes when it succeeds |
| `QkdProtocol.GenerateSharedKey` | backend/qkd_protocol.py:55-72 | the loop with its early exit, the failure check, the truncation and the packing return exactly `SharedKey` of the budgeted rounds' outputs |
| `QkdProtocol.AccumulatePool` | backend/qkd_protocol.py:56-60 | the round loop with its early `break` leaves exactly `Pool` of the budgeted rounds' outputs |
| `QkdProtocol.GroupValue` | backend/qkd_protocol.py:68-70 | the inner loop `val = (val << 1) \| b` computes the group's value |
| `QkdProtocol.PackKeyBits` | backend/qkd_protocol.py:66-71 | the packing loop builds exactly `PackBits` of the truncated pool |
| `Basics.Pow2AtMostByte` | backend/qkd_protocol.py:71 | a group of at most 8 bits fits in the byte that `bytearray.append` requires |
| `DecryptEndpoint.OutputName` | backend/main.py:58 | `original_name` when given and non-empty, otherwise the upload's filename |
| `DecryptEndpoint.StripEnc` | backend/main.py:59-60 | a name ending in `.enc` loses exactly those 4 characters; any other name is unchanged |
| `DecryptEndpoint.StripEncAppended` | backend/main.py:59-60 | stripping undoes appending `.enc`, once only |
| `DecryptEndpoint.StripEncOnce` | backend/main.py:59-60 | `a.enc.enc` becomes `a.enc` and `.enc` becomes the empty name |
| `DecryptEndpoint.StripEncKeepsOtherNames` | backend/main.py:59 | `notes.txt` is returned unchanged |
| `DecryptEndpoint.DecryptFile` | backend/main.py:46-68 | a bad key length is a 400 reported before any IV check; a bad IV length is a 400; a 500 is answered exactly for an exception: a decoding that raised, a decryptor that raised, or no usable name (`None.endswith`); a 400 only for a failed length check; otherwise a download carrying the plaintext and the stripped name (see Left out for header encoding) |
| `DecryptEndpoint.RejectedWithoutDecrypting` | backend/main.py:48-55 | when a decoding raises or a length check fails, the decryptor is never consulted |
| `DecryptEndpoint.DecryptFailureIs500` | backend/main.py:55-68 | a decryption or unpadding error after both checks passed is a 500 |

## Left out

- The Qiskit circuit, `transpile`, `AerSimulator.run` and `get_counts` are not modelled. They are a foreign library and a physical simulation. Each round's bit string is an input. The four-state gate model in `QubitOutcome` drops global phases, and it takes the collapse of a superposed qubit as a given coin.
- numpy's random draws in `generate_bases` and `run_bb84_round` are not modelled, because they are nondeterministic. Alice's bits and both parties' bases are inputs. `ValidRound` states their domain: 0/1 values, one per qubit.
- `QKDProtocol` is not a class here. Its fields are set once in `__init__` and never updated. `ValidRound` only makes one round's four sequences equal in length, so rounds of different lengths are allowed, a harmless generalisation of the fixed `key_length`. Only `SmallBudgetFails` assumes a common length `keyLength`.
- AES-CBC decryption and PKCS#7 unpadding (`aes_cbc_pkcs7_decrypt`) are an opaque function parameter (`Decryptor`). They are delegated to the `cryptography` package, which is not part of this model.
- Base64 decoding of the IV and hex decoding of the key are not modelled, because they are library calls. The model takes the decoded bytes, or `None` when the decoding raised.
- FastAPI routing, `UploadFile.read`, the `/upload` endpoint's file write and directory creation, `StreamingResponse` and its headers are not modelled. They are I/O plumbing.
- The key endpoint's hex encoding of the key (`key_bytes.hex()`) is not modelled, because it is a library call.
- DecryptEndpoint.DecryptFile: the `Content-Disposition` header is built inside the `try`, and the web framework encodes header values as Latin-1. A name with a character it cannot encode therefore gets a 500 in the code, where the model answers with a download. This is library behaviour, not modelled.
- DecryptEndpoint.DecryptFile: the 500 response carries the error kind `Exception`, not the text `str(e)`. The two 400 messages appear only as comments on `ErrorKind`.
- An exception from `generate_shared_key` inside the key endpoint is not modelled as an HTTP response. The endpoint does not catch it, so the web framework answers.
