# Derivative-token tooling: encoders and mint batching, in Dafny

This project models the two pieces of plain sequential logic in the
derivative-token repository's Python tooling, and proves properties about them.

- **Test encoders** (`tests/utils.py`). `to_uint` splits an integer into the
  `(low, high)` pair of 128-bit limbs that the contracts take as a Uint256, and
  `from_uint` joins the pair back. `str_to_felt` reads the bytes of a short
  string as one big-endian unsigned integer (a field element, "felt").
  `felt_to_str` writes a felt back as exactly 31 big-endian bytes. Python's `&`,
  `>>` and `<<` on unbounded integers are written out. `&` is a bit-by-bit
  two's-complement AND (`Uint256.And`), and the model proves that ANDing with
  `(1 << 128) - 1` gives the residue modulo 2^128. `>>` is floor division by a
  power of two, and `<<` is multiplication by a power of two. `int.to_bytes` raises
  `OverflowError` for negative or oversized values. That error is a `Failure`
  result here.
- **Mint batching** (`scripts/mint_tokens.py`, `mint_tokens`). The script walks
  the ids `[start_id, start_id + total_num)` and prepares one `mint(agent, id,
  parents)` call per id. It submits a batch each time `BATCH_SIZE` (100) calls
  have built up, then submits any non-empty remainder. Each submission is
  modelled as appending `(fromId, toId, calls)` to a log. The method
  `MintTokens.MintTokens` keeps the script's loop: the same counters, the same
  flush test and the same final flush. Its postcondition `MintLog` says:
  - the log holds the calls of the whole range, in order;
  - each batch holds 1 to 100 calls and reports the ids of its first and last
    call;
  - every batch but the last is full;
  - batches are contiguous;
  - there are `ceil(n / 100)` batches for `n` ids, and none when
    `total_num <= 0`.

The files are `arith.dfy` (powers and Euclidean-division facts), `uint256.dfy`,
`felt.dfy` and `mint.dfy`. There is one module per file.

## Model

| member | source | states |
|---|---|---|
| Uint256.And | tests/utils.py:10 | two's-complement `a & m` for a non-negative mask `m` never exceeds `m`, nor `a` when `a` is non-negative; its partner `AndLowMaskIsMod` pins its value for low-bit masks |
| Uint256.ShiftRight | tests/utils.py:10 | `x >> k` is the floor of `x / 2^k`: `r * 2^k <= x < (r + 1) * 2^k`, negative `x` included |
| Uint256.ShiftLeft | tests/utils.py:14 | `x << k` has its low `k` bits zero (`r % 2^k == 0`), and shifting it right by `k` gives back `x`; together these fix it as exactly `x * 2^k` |
| Uint256.FromUint | tests/utils.py:13-14 | `from_uint((lo, hi))` is the integer that `to_uint` splits back into `(lo, hi)` whenever `0 <= lo < 2^128`; with `FromToUint` the two are inverse |
| Uint256.AndLowMaskIsMod | tests/utils.py:10 | ANDing any integer, negative ones included, with the mask `(1 << k) - 1` yields its residue modulo 2^k |
| Uint256.ToUint | tests/utils.py:9-10 | the low limb always lies in [0, 2^128), and `low + high * 2^128` equals the input for every integer |
| Uint256.FromToUint | tests/utils.py:9-14 | `from_uint(to_uint(n)) == n` for every integer `n` |
| Uint256.ToFromUint | tests/utils.py:9-14 | `to_uint(from_uint((lo, hi))) == (lo, hi)` whenever `0 <= lo < 2^128`, for any `hi` |
| Uint256.HighLimbFits | tests/utils.py:10 | for `0 <= n < 2^256` the high limb also lies in [0, 2^128), so both limbs fit 128 bits |
| Felt.BigEndianValue | tests/utils.py:2 | `int.from_bytes(b, 'big')` is a natural number below 256^k for `k` bytes, so empty bytes give 0; `AppendByte` and `LeadingZeros` state its big-endian reading |
| Felt.StrToFelt | tests/utils.py:1-2 | the felt read from `k` bytes is a natural number below 256^k |
| Felt.AppendByte | tests/utils.py:2 | big-endian reading: appending byte `c` to `b` gives `256 * value(b) + c` |
| Felt.LeadingZeros | tests/utils.py:2 | prepending zero bytes does not change the value read |
| Felt.ToBytes | tests/utils.py:6 | `to_bytes(f, len, 'big')` fails with `OverflowError` exactly when `f < 0` or `f >= 256^len`; otherwise it gives exactly `len` bytes whose big-endian value is `f` |
| Felt.FeltToStr | tests/utils.py:5-6 | the `felt.to_bytes(31, 'big')` step fails exactly when the felt is negative or at least 2^248; otherwise it gives exactly 31 bytes that read back as the felt (the `decode()` step is left out) |
| Felt.DigitsValue | tests/utils.py:6 | the `len` big-endian digits of a value below 256^len read back as that value |
| Felt.DigitsOfValue | tests/utils.py:1-6 | writing the value of a byte string `b` to at least as many bytes as `b` has gives `b` left-padded with zero bytes |
| Felt.FeltRoundTrip | tests/utils.py:1-6 | every felt in [0, 2^248) encodes successfully and its 31 bytes decode back to the felt |
| Felt.StrRoundTrip | tests/utils.py:1-6 | every byte string of at most 31 bytes encodes back to itself, left-padded with zero bytes to 31 |
| MintTokens.PrepareMint | scripts/mint_tokens.py:47-50 | the prepared `mint` call goes to the agent account whatever the id, mints `id`, and carries one parent reference per parent address, in order, each naming `id` |
| MintTokens.ParentRefs | scripts/mint_tokens.py:50 | the parent list has one entry per parent address, in the given order, each naming that address and the minted token's id |
| MintTokens.MintTokens | scripts/mint_tokens.py:36-57 | the log covers the range's calls in order, in labelled, contiguous, non-empty batches of at most 100 calls, all full but the last, `ceil(n / 100)` batches for `n` ids and none when `total_num <= 0` |
| MintTokens.WalkedFlush | scripts/mint_tokens.py:47-54 | the call that fills a batch submits it with label `(batch_start_id, id)` and starts the next batch at `id + 1` with the loop state intact |
| MintTokens.WalkedFinish | scripts/mint_tokens.py:56-57 | after the walk, submitting the non-empty remainder as `(batch_start_id, id - 1)`, or nothing when it is empty, completes a log with every promised property |
| MintTokens.EachIdMintedOnce | scripts/mint_tokens.py:43-55 | every id of the range is minted, no id outside it is, and ids strictly increase along the calls, so each id gets exactly one call |
| MintTokens.BatchesMintTheirRange | scripts/mint_tokens.py:44-57 | each batch's calls mint exactly the ids `fromId`, `fromId + 1`, ..., `toId`, in order |
| MintTokens.CallsShareRecipientAndParents | scripts/mint_tokens.py:47-50 | every call mints to the agent account whatever the id, and carries one parent entry per parent address, in order, naming the minted id |

## Left out

- The UTF-8 text codec steps (`str.encode()` in `str_to_felt`, `bytes.decode()`
  in `felt_to_str`) are left out. Both encoders are modelled over byte
  sequences, so the `UnicodeDecodeError` that `decode()` can raise on a
  non-UTF-8 byte string is not modelled.
- `assert_revert`, which the contract tests import from `tests/utils.py`, is
  not part of this model. It is not among the file's lines.
- MintTokens.MintTokens: assumes every submission succeeds. In the script a
  `batch_mint` whose `execute` or `wait_for_tx` raises ends `mint_tokens` with
  the earlier batches already submitted and the rest never sent; nothing
  catches the error. The model has no failing submission, so it does not
  describe that partial log.
- `batch_mint` is abstracted to an append to the output log. The real
  operation is an asynchronous account transaction with a maximum fee, plus
  the wait for its receipt and a progress print. Network I/O and fees are
  outside a pure model.
- `token_contract.functions['mint'].prepare(...)` is abstracted to the plain
  `MintCall` record. The library call encodes the agent address, the token id
  and the parent structs into transaction calldata; that encoding, and any
  check it makes on the values, is outside this model.
- The `int(addr, 0)` parse of each parent address is left out. Parent
  addresses are taken as already-parsed integers.
- `main`'s command-line parsing, client creation and contract loading are I/O
  plumbing and are left out.
- `scripts/common.py`, `scripts/deploy_registry.py`, `scripts/deploy_tokens.py`
  and `scripts/upgrade_tokens.py` are left out. They build calldata and submit
  transactions, or parse arguments and read account files. None of them holds
  logic beyond that.
- `tests/test_contracts.py` and `tests/conftest.py` are left out. They drive
  Cairo contracts through a simulator: the token registry, settings
  hierarchy, licensing, royalties, transfer rules and proxy upgrades. The
  Cairo sources of those contracts (`contracts/...`) are not part of this
  model, so their behaviour could only be reconstructed, not modelled.
