# KeepKey keyring, modelled in Dafny

`KeepKeyKeyring` adapts a KeepKey hardware wallet to a wallet application's
keyring interface. The keyring's own state is small: the paired wallet
(absent while the keyring is locked) and the list of account addresses it has
derived. The position of an address in the list is its account index. Account
`n` lives at the BIP-44 path `m/44'/60'/n'/0/0`: purpose 44, coin type 60
(Ethereum in SLIP-0044), account `n`, chain 0, address 0. A primed component
is hardened, i.e. offset by 2^31 as in BIP-32. Signing is done by the device.
The keyring checks its guards in a fixed order, builds the request and passes
the device's answer back.

The project has four modules:

- `Wrappers` (`wrappers.dfy`): `Option` and `Result`. A `Result` stands for a
  call that resolves (`Ok`) or rejects (`Err`).
- `Bip32` (`bip32.dfy`): the index list of an account path in closed form. It
  also has a parser for BIP-32 path notation. The proof shows that parsing
  the text the keyring builds gives the closed form.
- `KeyringModel` (`keyring_model.dfy`): the keyring as a state machine over
  values. A `State` holds the wallet, the accounts and a `log` of the
  requests that reached the device. Each operation is a function from the old
  state to the new state and the call's outcome. `Valid` is the keyring
  invariant:
  - a locked keyring has no accounts and has sent no request;
  - in an unlocked one, `accounts[i]` is the paired device's address for
    path `i`, and that path was requested from the device.

  The device is an oracle. It is a value holding its ETH-capability flag and
  one total function per kind of request, returning `None` where the SDK
  returns null.
- `KeepKey` (`keepkey.dfy`): the class `KeepKeyKeyring`, with the fields
  `wallet` and `accounts` updated in place and a ghost `log`. Each method is
  proved to give the new state and result that the matching `KeyringModel`
  function gives for the old state. `addAccounts` keeps the source's loop.

Errors carry the source's messages (`Error.Message`).

Behaviour of src/index.ts that the model keeps:

- A null answer from `signPersonalMessage`'s device call rejects with
  "unable to sign message"; `signTransaction` rejects a null answer with
  "signing failed".
- `unlock` adds the account at index `|accounts|`. That index is 0 only
  because a locked keyring has no accounts. `Valid` carries this fact and
  `KeyringModel.Unlock` states it.
- The keyring never checks addresses for duplicates. They are distinct only
  when the device derives distinct addresses for distinct paths
  (`KeyringModel.AccountsDistinct`). Lookups take the first match.
- `unlock` stores the wallet before it derives the first address. If that
  derivation fails, the call rejects but the keyring stays unlocked, with no
  accounts.
- `addAccounts(n)` accepts any integer: `n <= 0` adds nothing and resolves
  with an empty list.
- `removeAccount` and `forgetDevice` are not `async`. They throw when called
  instead of returning a rejected promise. Both are modelled as rejections.

## Model

| member | source | states |
|---|---|---|
| `Bip32.AddressNListForAccountIndex` | src/index.ts:49-51 | the BIP-44 index list of account n: five components, of which purpose 44, coin type 60 and account n are hardened (offset by 2^31) and chain 0 and address 0 are not |
| `Bip32.AccountPathParses` | src/index.ts:49-51 | parsing the text `m/44'/60'/n'/0/0` yields `[44+2^31, 60+2^31, n+2^31, 0, 0]` when `n < 2^31`; for larger `n` the account segment is not a BIP-32 index and the text does not parse |
| `Bip32.AccountComponentOnly` | src/index.ts:49-51 | every account path has five components; two accounts' paths agree on all of them except the third (the account), and that one differs exactly when the indices differ |
| `KeyringModel.InitialValid` | src/index.ts:12-15 | a new keyring is locked, has no accounts and satisfies the keyring invariant |
| `KeyringModel.IndexOf` | src/index.ts:92 | `accounts.indexOf(x)`: -1 exactly when `x` is absent, otherwise the first position holding `x` |
| `KeyringModel.AddAccount` | src/index.ts:53-63 | locked: rejects "not unlocked" and changes nothing; unlocked: requests the address of path(|accounts|) once, appends the device's answer and resolves with it, or rejects "unable to add account" and leaves the accounts alone; the wallet never changes |
| `KeyringModel.AddAccountValid` | src/index.ts:53-63 | addAccount preserves the invariant: the appended entry is the device's address for path(|accounts|), and that path is recorded as requested |
| `KeyringModel.AddAccounts` | src/index.ts:65-71 | addAccounts(n), as n addAccount calls in sequence that stop at the first rejection, never changes the paired wallet |
| `KeyringModel.AddAccountsAppends` | src/index.ts:65-71 | the old accounts stay as a prefix; at most max(n,0) entries are added; a resolved call returns exactly max(n,0) addresses, equal to the new suffix of the accounts; a rejection needs n > 0 and leaves fewer than n new entries |
| `KeyringModel.AddAccountsFailure` | src/index.ts:65-71 | a locked keyring rejects "not unlocked" with nothing changed; otherwise a rejection is "unable to add account", and the device gave no address for the index right after the entries that were kept |
| `KeyringModel.AddAccountsRequests` | src/index.ts:65-71 | the device receives one address request per attempted index, in order from the old account count: n of them on success, up to and including the failing index on rejection |
| `KeyringModel.AddAccountsValid` | src/index.ts:53-71 | addAccounts preserves the invariant: every appended entry is the device's address for its own index |
| `KeyringModel.AddAccountsSucceedsIff` | src/index.ts:65-71 | addAccounts(n) resolves if and only if n <= 0, or the keyring is unlocked and the device derives an address for each of the next n indices |
| `KeyringModel.AddAccountsSplit` | src/index.ts:65-71 | addAccounts(m+n) has the same outcome as addAccounts(m) followed by addAccounts(n): the same final state, and both address lists in order, or the first call's rejection |
| `KeyringModel.Unlock` | src/index.ts:37-47 | unlocked: resolves "already unlocked" and changes nothing; failed pairing or no ETH support: rejects and nothing changes, so the keyring stays locked; otherwise stores the wallet and performs exactly one addAccount, at index |accounts|; from a valid locked state a success leaves exactly one account, the device's address for path(0) |
| `KeyringModel.UnlockValid` | src/index.ts:37-47 | unlock preserves the invariant: a newly paired keyring starts from no accounts and no requests, and the first derived account is the device's address for path(0) |
| `KeyringModel.UnlockThenAddTwo` | src/index.ts:37-71 | unlocking a new keyring and then addAccounts(2), with a device that answers for indices 0..2, gives three accounts, each the device's address for its own path |
| `KeyringModel.Normalize` | src/index.ts:77-85 | `_normalize`: a big number or a buffer becomes its hex string (carrying the same value); anything else is a TypeError |
| `KeyringModel.SignTxRequestFor` | src/index.ts:97-106 | the device request carries the given path, recipient and chain id and the normalised nonce, value, data, gasLimit and gasPrice; it exists exactly when all five fields normalise, otherwise TypeError |
| `KeyringModel.SignatureBuffer` | src/index.ts:109-113 | `v` becomes a one-byte buffer holding v mod 256, which equals v when v < 256; `r` and `s` are passed through |
| `KeyringModel.SignTransaction` | src/index.ts:87-114 | the checks run in order: "not unlocked", then "no account with provided address", then "to address expected", then TypeError; none of these failures touches the state or the device; the device is reached exactly when all checks pass, with one request on path(k), where k is the first index holding the address; the result is the device's signature, or "signing failed"; wallet and accounts never change |
| `KeyringModel.SignTransactionUsesAccountKey` | src/index.ts:92-97 | from a valid state, the path signTransaction sends to the device is one for which the device derives exactly the requested address; the invariant is preserved |
| `KeyringModel.SignPersonalMessage` | src/index.ts:120-136 | "not unlocked" takes precedence over "no account with provided address", although the lookup comes first; neither failure touches the state or the device; otherwise there is one request on path(first index of the address) carrying the message, and the result is the device's signature string or "unable to sign message"; wallet and accounts never change |
| `KeyringModel.SignPersonalMessageUsesAccountKey` | src/index.ts:124-130 | from a valid state, the path signPersonalMessage sends to the device is one for which the device derives exactly the requested address; the invariant is preserved |
| `KeyringModel.AccountsDistinct` | src/index.ts:56-61 | account addresses are pairwise distinct when the device derives distinct addresses for distinct account paths |
| `KeepKey.KeepKeyKeyring.constructor` | src/index.ts:11-22 | a new keyring is the initial state: locked, no accounts, no device traffic |
| `KeepKey.KeepKeyKeyring.IsUnlocked` | src/index.ts:33-35 | true exactly when a wallet is held; a valid locked keyring has no accounts and has sent no request |
| `KeepKey.KeepKeyKeyring.Unlock` | src/index.ts:37-47 | assigns `wallet` and calls AddAccount as KeyringModel.Unlock prescribes, keeping the invariant |
| `KeepKey.KeepKeyKeyring.AddAccount` | src/index.ts:53-63 | pushes onto `accounts` in place as KeyringModel.AddAccount prescribes: on success accounts grows by exactly the returned address, on failure it is unchanged; keeps the invariant |
| `KeepKey.KeepKeyKeyring.AddAccounts` | src/index.ts:65-71 | the loop of addAccount calls reaches exactly the state and result of KeyringModel.AddAccounts for the old state and n, and keeps the invariant; n defaults to 1 |
| `KeepKey.KeepKeyKeyring.GetAccounts` | src/index.ts:73-75 | returns the account list by value, so a caller cannot alter it; in a valid unlocked keyring each entry i is the device's address for path(i) |
| `KeepKey.KeepKeyKeyring.SignTransaction` | src/index.ts:87-114 | changes only the request log, exactly as KeyringModel.SignTransaction prescribes; keeps the invariant |
| `KeepKey.KeepKeyKeyring.SignMessage` | src/index.ts:116-118 | the same new state and result as signPersonalMessage for the same arguments |
| `KeepKey.KeepKeyKeyring.SignPersonalMessage` | src/index.ts:120-136 | changes only the request log, exactly as KeyringModel.SignPersonalMessage prescribes; keeps the invariant |
| `KeepKey.KeepKeyKeyring.DecryptMessage` | src/index.ts:138-143 | always rejects "Not supported on this device", locked or unlocked, and modifies nothing |
| `KeepKey.KeepKeyKeyring.SignTypedData` | src/index.ts:145-151 | always rejects "Not supported on this device", locked or unlocked, and modifies nothing |
| `KeepKey.KeepKeyKeyring.GetEncryptionPublicKey` | src/index.ts:153-155 | always rejects "Not supported on this device", locked or unlocked, and modifies nothing |
| `KeepKey.KeepKeyKeyring.GetAppKeyAddress` | src/index.ts:157-159 | always rejects "Not supported on this device", locked or unlocked, and modifies nothing |
| `KeepKey.KeepKeyKeyring.ExportAccount` | src/index.ts:161-163 | always rejects "Not supported on this device", locked or unlocked, and modifies nothing |
| `KeepKey.KeepKeyKeyring.RemoveAccount` | src/index.ts:165-167 | always rejects "Not supported on this device", locked or unlocked, and modifies nothing |
| `KeepKey.KeepKeyKeyring.ForgetDevice` | src/index.ts:169-171 | always rejects "Not supported on this device", locked or unlocked, and modifies nothing |

## Left out

- WebUSB pairing (`Adapter.useKeyring`, `pairDevice`, the `core.Keyring` field): transport plumbing in an external library. Its outcome is the `paired` argument of `Unlock`: a device, or the message the pairing failed with.
- The device's own behaviour (`ethGetAddress`, `ethSignTx`, `ethSignMessage`, `supportsETH`): it runs in the SDK and on the hardware. Each is an oracle function of the request. A device therefore answers the same request the same way every time, so a transient failure that a retry would clear is not modelled.
- KeyringModel.AddAccountsFailure: a device call that rejects is not modelled. The SDK's `ethGetAddress`, `ethSignTx` and `ethSignMessage` (src/index.ts:57, 97, 129) may reject, for example when the device is unplugged or the user cancels on it, and the keyring call then rejects with that error. The device oracles return an address or signature, or none, so every rejection of an unlocked `addAccount`/`addAccounts` is "unable to add account" here. For the same reason `KeyringModel.AddAccount`, `KeyringModel.SignTransaction` and `KeyringModel.SignPersonalMessage` have no error path for a rejected device call.
- `EventEmitter`, `async`/`await` and promises: calls are modelled as sequential. Two overlapping calls, such as two `addAccount` calls that both read the same account count before their awaits resolve, are not modelled.
- The hex text made by `bnToHex` and `bufferToHex` in `_normalize`: foreign library formatting. A normalised field is represented by the number or bytes it spells.
- `toBuffer` of the device's `r` and `s`: foreign conversion. The device's `r` and `s` are taken as bytes.
- `chainIdBN().toNumber()` and `tx.to.toString()`: foreign conversions. The chain id is a natural number and the recipient is a string, so chain ids that do not fit in 53 bits, for which `toNumber()` throws, are not modelled.
- KeyringModel.SignPersonalMessage: the hex-to-UTF-8 decoding of `msgHex` is foreign text handling. The request carries `msgHex` as given, so the rejection of non-hex input by `toBuffer` before the device is reached is not modelled.
- `serialize`/`deserialize` and the constructor's argument: they have no effect. The `type` constants and the unused fields `addressNList` and `accountIndex` are also left out.
- Bip32.AddressNListForAccountIndex: for `n >= 2^31` the path text is rejected by the model's BIP-32 parser (`AccountPathParses`), but the model still returns the closed form. Reaching this takes 2^31 accounts. The `h`/`H` hardened markers of some path parsers are not accepted, because the keyring never writes them.
- KeepKey.KeepKeyKeyring.AddAccounts: the count is an integer. A fractional count, which the JavaScript loop would round up, is not modelled.
