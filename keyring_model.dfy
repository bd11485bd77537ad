/**
 * The KeepKey keyring as a state machine over values.
 *
 * The keyring's state is the paired device (absent while locked), the list of
 * account addresses (position = derivation index) and, as a record of the
 * device traffic, the log of requests that reached the device. Each operation
 * is a function from the old state (and its arguments) to the new state and the
 * value the call resolves with or the error it rejects with.
 *
 * The device is an oracle: a value holding its capability flag and, for each
 * kind of request, the answer it gives (None where the SDK returns null).
 */
module KeyringModel {
  import opened Wrappers
  import opened Bip32

  newtype byte = b: int | 0 <= b < 256

  type Address = string

  /** Why a call rejects; `Message` is the text of the thrown Error. */
  datatype Error =
    | NotUnlocked
    | UnsupportedDevice
    | PairingFailed(reason: string)
    | DerivationFailed
    | UnknownAccount
    | MissingRecipient
    | InvalidField
    | SigningFailed
    | MessageSigningFailed
    | NotSupported
  {
    function Message(): string {
      match this
      case NotUnlocked => "not unlocked"
      case UnsupportedDevice => "wallet instance does not support ETH"
      case PairingFailed(reason) => reason
      case DerivationFailed => "unable to add account"
      case UnknownAccount => "no account with provided address"
      case MissingRecipient => "to address expected"
      case InvalidField => ""  // a bare TypeError
      case SigningFailed => "signing failed"
      case MessageSigningFailed => "unable to sign message"
      case NotSupported => "Not supported on this device"
    }
  }

  // ---------------------------------------------------------------------
  // Transactions and device requests

  /** A numeric transaction field as the caller hands it over: a big number, a byte buffer, or neither. */
  datatype Field = BN(n: nat) | Buffer(bytes: seq<byte>) | Other

  /** A canonical 0x-prefixed hexadecimal string, represented by what it spells. */
  datatype Hex = BnHex(n: nat) | BufferHex(bytes: seq<byte>)

  datatype Transaction = Transaction(
    to: Option<string>,
    chainId: nat,
    nonce: Field,
    value: Field,
    data: Field,
    gasLimit: Field,
    gasPrice: Field)

  datatype SignTxRequest = SignTxRequest(
    addressNList: AddressNList,
    chainId: nat,
    nonce: Hex,
    to: string,
    value: Hex,
    data: Hex,
    gasLimit: Hex,
    gasPrice: Hex)

  /** The device's signature parts. */
  datatype RawTxSignature = RawTxSignature(v: nat, r: seq<byte>, s: seq<byte>)

  /** The signature handed back to the caller: `v` as a one-byte buffer. */
  datatype TxSignature = TxSignature(v: seq<byte>, r: seq<byte>, s: seq<byte>)

  datatype SignMessageRequest = SignMessageRequest(addressNList: AddressNList, message: string)

  datatype SignedMessage = SignedMessage(address: Address, signature: string)

  datatype Device = Device(
    supportsEth: bool,
    ethGetAddress: AddressNList -> Option<Address>,
    ethSignTx: SignTxRequest -> Option<RawTxSignature>,
    ethSignMessage: SignMessageRequest -> Option<SignedMessage>)

  /** A request that reached the device. */
  datatype Request =
    | GetAddress(addressNList: AddressNList)
    | SignTx(tx: SignTxRequest)
    | SignMessage(msg: SignMessageRequest)

  datatype State = State(wallet: Option<Device>, accounts: seq<Address>, log: seq<Request>)

  /** A freshly constructed keyring: locked, no accounts, no device traffic. */
  const Initial: State := State(None, [], [])

  /**
   * The keyring invariant. A locked keyring has no accounts and has never
   * talked to a device. An unlocked one holds, at every position `i`, the
   * address the paired device gives for account `i`'s path, and that path
   * was requested from the device.
   */
  predicate Valid(s: State) {
    match s.wallet
    case None => s.accounts == [] && s.log == []
    case Some(d) =>
      forall i :: 0 <= i < |s.accounts| ==>
        d.ethGetAddress(AddressNListForAccountIndex(i)) == Some(s.accounts[i]) &&
        GetAddress(AddressNListForAccountIndex(i)) in s.log
  }

  lemma InitialValid()
    ensures Valid(Initial) && Initial.wallet.None? && Initial.accounts == []
  {
  }

  // ---------------------------------------------------------------------
  // Account management

  /** The first position of `x` in `xs`, or -1 (Array.prototype.indexOf). */
  function IndexOf(xs: seq<Address>, x: Address): (i: int)
    ensures -1 <= i < |xs|
    ensures i < 0 <==> x !in xs
    ensures 0 <= i ==> xs[i] == x && forall k :: 0 <= k < i ==> xs[k] != x
  {
    if xs == [] then -1
    else if xs[0] == x then 0
    else
      var j := IndexOf(xs[1..], x);
      if j < 0 then -1 else j + 1
  }

  /** addAccount: derive the address of the next account index and append it. */
  function AddAccount(s: State): (r: (State, Result<Address, Error>))
    ensures r.0.wallet == s.wallet
    ensures s.wallet.None? ==> r == (s, Err(NotUnlocked))
    ensures s.wallet.Some? ==>
      var path := AddressNListForAccountIndex(|s.accounts|);
      r.0.log == s.log + [GetAddress(path)] &&
      match s.wallet.value.ethGetAddress(path)
      case None => r.0.accounts == s.accounts && r.1 == Err(DerivationFailed)
      case Some(a) => r.0.accounts == s.accounts + [a] && r.1 == Ok(a)
  {
    match s.wallet
    case None => (s, Err(NotUnlocked))
    case Some(d) =>
      var path := AddressNListForAccountIndex(|s.accounts|);
      var s' := s.(log := s.log + [GetAddress(path)]);
      match d.ethGetAddress(path)
      case None => (s', Err(DerivationFailed))
      case Some(address) => (s'.(accounts := s.accounts + [address]), Ok(address))
  }

  /** addAccount keeps the invariant: the new entry is the device's address for its own index. */
  lemma AddAccountValid(s: State)
    requires Valid(s)
    ensures Valid(AddAccount(s).0)
  {
  }

  function Max0(n: int): nat {
    if n < 0 then 0 else n
  }

  /** The address requests for `count` consecutive accounts starting at `from`. */
  function Derivations(from: nat, count: int): seq<Request>
    decreases count
  {
    if count <= 0 then []
    else [GetAddress(AddressNListForAccountIndex(from))] + Derivations(from + 1, count - 1)
  }

  /** The outcome of a sequence of addAccount calls whose earlier ones resolved with `done`. */
  function Prepend(done: seq<Address>, rest: (State, Result<seq<Address>, Error>)): (State, Result<seq<Address>, Error>)
  {
    (rest.0, match rest.1 case Ok(more) => Ok(done + more) case Err(e) => Err(e))
  }

  /**
   * addAccounts(n): `n` calls of addAccount, one after the other, collecting
   * their addresses; the first failure rejects the whole call and keeps what
   * was appended before it.
   */
  function AddAccounts(s: State, n: int): (r: (State, Result<seq<Address>, Error>))
    ensures r.0.wallet == s.wallet
    decreases n
  {
    if n <= 0 then (s, Ok([]))
    else
      var (s1, r1) := AddAccount(s);
      if r1.Err? then (s1, Err(r1.error))
      else Prepend([r1.value], AddAccounts(s1, n - 1))
  }

  /**
   * addAccounts only appends: the old accounts stay as a prefix and at most
   * max(n, 0) entries are added; a resolved call returns exactly max(n, 0)
   * addresses, the new suffix; a rejected one added fewer than n.
   */
  lemma {:induction false} AddAccountsAppends(s: State, n: int)
    ensures var r := AddAccounts(s, n);
      |s.accounts| <= |r.0.accounts| <= |s.accounts| + Max0(n) &&
      r.0.accounts[..|s.accounts|] == s.accounts &&
      (r.1.Ok? ==> r.1.value == r.0.accounts[|s.accounts|..] && |r.1.value| == Max0(n)) &&
      (r.1.Err? ==> 0 < n && |r.0.accounts| < |s.accounts| + n)
    decreases n
  {
    if 0 < n {
      var (s1, r1) := AddAccount(s);
      if r1.Ok? {
        AddAccountsAppends(s1, n - 1);
        var rest := AddAccounts(s1, n - 1);
        assert rest.0.accounts[..|s.accounts|] == s.accounts by {
          assert rest.0.accounts[..|s1.accounts|][..|s.accounts|] == rest.0.accounts[..|s.accounts|];
        }
        if rest.1.Ok? {
          assert [r1.value] + rest.1.value == rest.0.accounts[|s.accounts|..] by {
            assert rest.0.accounts[|s.accounts|..] == [rest.0.accounts[|s.accounts|]] + rest.0.accounts[|s1.accounts|..];
          }
        }
      }
    }
  }

  /** One step of addAccounts: the first addAccount call, then the remaining n - 1. */
  lemma AddAccountsStep(s: State, n: int)
    requires 0 < n
    ensures AddAccounts(s, n) ==
      var (s1, r1) := AddAccount(s);
      if r1.Err? then (s1, Err(r1.error)) else Prepend([r1.value], AddAccounts(s1, n - 1))
  {
  }

  /** `first`, followed (when it resolved) by addAccounts(n) on the state it left. */
  function Then(first: (State, Result<seq<Address>, Error>), n: int): (State, Result<seq<Address>, Error>)
  {
    if first.1.Ok? then Prepend(first.1.value, AddAccounts(first.0, n)) else first
  }

  lemma PrependThen(done: seq<Address>, first: (State, Result<seq<Address>, Error>), n: int)
    ensures Prepend(done, Then(first, n)) == Then(Prepend(done, first), n)
  {
    if first.1.Ok? {
      PrependAssociates(done, first.1.value, AddAccounts(first.0, n));
    }
  }

  lemma PrependAssociates(done: seq<Address>, more: seq<Address>, rest: (State, Result<seq<Address>, Error>))
    ensures Prepend(done, Prepend(more, rest)) == Prepend(done + more, rest)
    ensures Prepend([], rest) == rest
  {
    if rest.1.Ok? {
      assert done + (more + rest.1.value) == (done + more) + rest.1.value;
      assert [] + rest.1.value == rest.1.value;
    }
  }

  /** A rejected addAccounts names the first index the device could not derive, or the missing wallet. */
  lemma {:induction false} AddAccountsFailure(s: State, n: int)
    ensures var r := AddAccounts(s, n);
      (s.wallet.None? && 0 < n ==> r == (s, Err(NotUnlocked))) &&
      (s.wallet.Some? && r.1.Err? ==>
        r.1 == Err(DerivationFailed) &&
        s.wallet.value.ethGetAddress(AddressNListForAccountIndex(|r.0.accounts|)).None?)
    decreases n
  {
    if 0 < n && s.wallet.Some? {
      var (s1, r1) := AddAccount(s);
      if r1.Ok? {
        AddAccountsFailure(s1, n - 1);
      }
    }
  }

  /**
   * The device sees one address request per attempted index, in increasing
   * order from the old account count: all `n` when the call resolves, up to
   * and including the failing one when it rejects.
   */
  lemma {:induction false} AddAccountsRequests(s: State, n: int)
    requires s.wallet.Some?
    ensures var r := AddAccounts(s, n);
      var attempts := if r.1.Ok? then Max0(n) else |r.0.accounts| - |s.accounts| + 1;
      r.0.log == s.log + Derivations(|s.accounts|, attempts)
    decreases n
  {
    if 0 < n {
      AddAccountsStep(s, n);
      var k := |s.accounts|;
      var first := GetAddress(AddressNListForAccountIndex(k));
      var (s1, r1) := AddAccount(s);
      if r1.Ok? {
        AddAccountsRequests(s1, n - 1);
        AddAccountsAppends(s1, n - 1);
        RequestsStep(s, s1, n, AddAccounts(s1, n - 1));
      } else {
        assert Derivations(k, 1) == [first];
      }
    }
  }

  lemma RequestsStep(s: State, s1: State, n: int, rest: (State, Result<seq<Address>, Error>))
    requires 0 < n && |s1.accounts| == |s.accounts| + 1
    requires s1.log == s.log + [GetAddress(AddressNListForAccountIndex(|s.accounts|))]
    requires rest.1.Err? ==> |s1.accounts| <= |rest.0.accounts|
    requires rest.0.log == s1.log + Derivations(|s1.accounts|,
      if rest.1.Ok? then Max0(n - 1) else |rest.0.accounts| - |s1.accounts| + 1)
    ensures rest.0.log == s.log + Derivations(|s.accounts|,
      if rest.1.Ok? then Max0(n) else |rest.0.accounts| - |s.accounts| + 1)
  {
    var k := |s.accounts|;
    var first := GetAddress(AddressNListForAccountIndex(k));
    var attempts := if rest.1.Ok? then Max0(n - 1) else |rest.0.accounts| - |s1.accounts| + 1;
    assert Derivations(k, attempts + 1) == [first] + Derivations(k + 1, attempts);
    assert s.log + ([first] + Derivations(k + 1, attempts)) == (s.log + [first]) + Derivations(k + 1, attempts);
  }

  /** addAccounts keeps the keyring invariant: every new entry is the device's address for its index. */
  lemma {:induction false} AddAccountsValid(s: State, n: int)
    requires Valid(s)
    ensures Valid(AddAccounts(s, n).0)
    decreases n
  {
    if 0 < n {
      AddAccountValid(s);
      var (s1, r1) := AddAccount(s);
      if r1.Ok? {
        AddAccountsValid(s1, n - 1);
      }
    }
  }

  /** The device derives an address for each of the `n` account indices from `from`. */
  predicate DerivesAll(d: Device, from: nat, n: int) {
    forall i :: from <= i < from + n ==> d.ethGetAddress(AddressNListForAccountIndex(i)).Some?
  }

  /** addAccounts(n) resolves exactly when the device answers for each of the next `n` account paths. */
  lemma {:induction false} AddAccountsSucceedsIff(s: State, n: int)
    ensures AddAccounts(s, n).1.Ok? <==>
      n <= 0 || (s.wallet.Some? && DerivesAll(s.wallet.value, |s.accounts|, n))
    decreases n
  {
    if 0 < n && s.wallet.Some? {
      var d := s.wallet.value;
      var k := |s.accounts|;
      var (s1, r1) := AddAccount(s);
      if r1.Ok? {
        AddAccountsSucceedsIff(s1, n - 1);
        assert AddAccounts(s, n).1.Ok? == AddAccounts(s1, n - 1).1.Ok?;
        assert |s1.accounts| == k + 1;
        assert d.ethGetAddress(AddressNListForAccountIndex(k)).Some?;
        assert DerivesAll(d, k, n) <==> DerivesAll(d, k + 1, n - 1);
      } else {
        assert !DerivesAll(d, k, n) by {
          assert d.ethGetAddress(AddressNListForAccountIndex(k)).None?;
        }
      }
    }
  }

  /**
   * addAccounts(m + n) is addAccounts(m) followed by addAccounts(n): same
   * final state, and the addresses of both calls in order, or the first
   * call's rejection.
   */
  lemma {:induction false} AddAccountsSplit(s: State, m: nat, n: nat)
    ensures AddAccounts(s, m + n) == Then(AddAccounts(s, m), n)
    decreases m
  {
    if m == 0 {
      PrependAssociates([], [], AddAccounts(s, n));
    } else {
      AddAccountsStep(s, m);
      AddAccountsStep(s, m + n);
      var (s1, r1) := AddAccount(s);
      if r1.Ok? {
        AddAccountsSplit(s1, m - 1, n);
        PrependThen([r1.value], AddAccounts(s1, m - 1), n);
      }
    }
  }

  /** unlock: pair a device (unless already paired), require ETH support, then add one account. */
  function Unlock(s: State, paired: Result<Device, string>): (r: (State, Result<string, Error>))
    ensures s.wallet.Some? ==> r == (s, Ok("already unlocked"))
    ensures s.wallet.None? && paired.Err? ==> r == (s, Err(PairingFailed(paired.error)))
    ensures s.wallet.None? && paired.Ok? && !paired.value.supportsEth ==> r == (s, Err(UnsupportedDevice))
    ensures s.wallet.None? && paired.Ok? && paired.value.supportsEth ==>
      var path := AddressNListForAccountIndex(|s.accounts|);
      r.0.wallet == Some(paired.value) &&
      r.0.log == s.log + [GetAddress(path)] &&
      match paired.value.ethGetAddress(path)
      case None => r.0.accounts == s.accounts && r.1 == Err(DerivationFailed)
      case Some(a) => r.0.accounts == s.accounts + [a] && r.1 == Ok(a)
    ensures Valid(s) && s.wallet.None? && r.0.wallet.Some? && r.1.Ok? ==>
      r.0.accounts == [r.1.value] &&
      r.0.wallet.value.ethGetAddress(AddressNListForAccountIndex(0)) == Some(r.1.value)
  {
    if s.wallet.Some? then (s, Ok("already unlocked"))
    else
      match paired
      case Err(reason) => (s, Err(PairingFailed(reason)))
      case Ok(wallet) =>
        if !wallet.supportsEth then (s, Err(UnsupportedDevice))
        else AddAccount(s.(wallet := Some(wallet)))
  }

  /** unlock keeps the invariant: a newly paired keyring starts from no accounts. */
  lemma UnlockValid(s: State, paired: Result<Device, string>)
    requires Valid(s)
    ensures Valid(Unlock(s, paired).0)
  {
    if s.wallet.None? && paired.Ok? && paired.value.supportsEth {
      AddAccountValid(s.(wallet := Some(paired.value)));
    }
  }

  // ---------------------------------------------------------------------
  // Signing

  /** _normalize: a big number or a buffer becomes its hex string; anything else is a TypeError. */
  function Normalize(x: Field): (r: Result<Hex, Error>)
    ensures r.Err? <==> x.Other?
    ensures r.Err? ==> r.error == InvalidField
    ensures x.BN? ==> r == Ok(BnHex(x.n))
    ensures x.Buffer? ==> r == Ok(BufferHex(x.bytes))
  {
    match x
    case BN(n) => Ok(BnHex(n))
    case Buffer(bytes) => Ok(BufferHex(bytes))
    case Other => Err(InvalidField)
  }

  /** Every numeric field of `tx` is a big number or a buffer. */
  predicate NormalizesAll(tx: Transaction) {
    !tx.nonce.Other? && !tx.value.Other? && !tx.data.Other? && !tx.gasLimit.Other? && !tx.gasPrice.Other?
  }

  /** The request sent for `tx` on `path`: the fields normalised in order nonce, value, data, gasLimit, gasPrice. */
  function SignTxRequestFor(path: AddressNList, to: string, tx: Transaction): (r: Result<SignTxRequest, Error>)
    ensures r.Ok? <==> NormalizesAll(tx)
    ensures r.Err? ==> r.error == InvalidField
    ensures r.Ok? ==>
      r.value.addressNList == path && r.value.to == to && r.value.chainId == tx.chainId &&
      Ok(r.value.nonce) == Normalize(tx.nonce) && Ok(r.value.value) == Normalize(tx.value) &&
      Ok(r.value.data) == Normalize(tx.data) && Ok(r.value.gasLimit) == Normalize(tx.gasLimit) &&
      Ok(r.value.gasPrice) == Normalize(tx.gasPrice)
  {
    var nonce :- Normalize(tx.nonce);
    var value :- Normalize(tx.value);
    var data :- Normalize(tx.data);
    var gasLimit :- Normalize(tx.gasLimit);
    var gasPrice :- Normalize(tx.gasPrice);
    Ok(SignTxRequest(path, tx.chainId, nonce, to, value, data, gasLimit, gasPrice))
  }

  /** The caller's signature: `v` goes into a one-byte buffer, which keeps only its low 8 bits. */
  function SignatureBuffer(signed: RawTxSignature): (sig: TxSignature)
    ensures |sig.v| == 1 && sig.v[0] as int == signed.v % 256
    ensures signed.v < 256 ==> sig.v == [signed.v as byte]
    ensures sig.r == signed.r && sig.s == signed.s
  {
    TxSignature([(signed.v % 256) as byte], signed.r, signed.s)
  }

  /**
   * signTransaction: "not unlocked", then "no account with provided address",
   * then "to address expected", then field normalisation, and only then the
   * device, on the path of the first account holding `withAccount`.
   */
  function SignTransaction(s: State, withAccount: Address, tx: Transaction): (r: (State, Result<TxSignature, Error>))
    ensures r.0.wallet == s.wallet && r.0.accounts == s.accounts
    ensures s.wallet.None? ==> r == (s, Err(NotUnlocked))
    ensures s.wallet.Some? && withAccount !in s.accounts ==> r == (s, Err(UnknownAccount))
    ensures s.wallet.Some? && withAccount in s.accounts && tx.to.None? ==> r == (s, Err(MissingRecipient))
    ensures s.wallet.Some? && withAccount in s.accounts && tx.to.Some? && !NormalizesAll(tx) ==> r == (s, Err(InvalidField))
    ensures r.1.Err? && r.1.error in {NotUnlocked, UnknownAccount, MissingRecipient, InvalidField} ==> r.0 == s
    ensures r.0.log != s.log <==>
      s.wallet.Some? && withAccount in s.accounts && tx.to.Some? &&
      NormalizesAll(tx)
    ensures r.0.log != s.log ==>
      |r.0.log| == |s.log| + 1 && r.0.log[..|s.log|] == s.log && r.0.log[|s.log|].SignTx? &&
      var request := r.0.log[|s.log|].tx;
      (exists k :: 0 <= k < |s.accounts| && s.accounts[k] == withAccount && withAccount !in s.accounts[..k] &&
        request.addressNList == AddressNListForAccountIndex(k)) &&
      Ok(request) == SignTxRequestFor(request.addressNList, tx.to.value, tx) &&
      r.1 == match s.wallet.value.ethSignTx(request)
             case None => Err(SigningFailed)
             case Some(signed) => Ok(SignatureBuffer(signed))
  {
    match s.wallet
    case None => (s, Err(NotUnlocked))
    case Some(d) =>
      var accountIndex := IndexOf(s.accounts, withAccount);
      if accountIndex < 0 then (s, Err(UnknownAccount))
      else
        var addressNList := AddressNListForAccountIndex(accountIndex);
        match tx.to
        case None => (s, Err(MissingRecipient))
        case Some(to) =>
          match SignTxRequestFor(addressNList, to, tx)
          case Err(e) => (s, Err(e))
          case Ok(request) =>
            var s' := s.(log := s.log + [SignTx(request)]);
            match d.ethSignTx(request)
            case None => (s', Err(SigningFailed))
            case Some(signed) => (s', Ok(SignatureBuffer(signed)))
  }

  /**
   * signPersonalMessage: the account lookup is made first but "not unlocked"
   * is reported before "no account with provided address"; the device signs
   * on the path of the first account holding `withAccount`.
   */
  function SignPersonalMessage(s: State, withAccount: Address, msgHex: string): (r: (State, Result<string, Error>))
    ensures r.0.wallet == s.wallet && r.0.accounts == s.accounts
    ensures s.wallet.None? ==> r == (s, Err(NotUnlocked))
    ensures s.wallet.Some? && withAccount !in s.accounts ==> r == (s, Err(UnknownAccount))
    ensures r.0.log != s.log <==> s.wallet.Some? && withAccount in s.accounts
    ensures r.0.log != s.log ==>
      |r.0.log| == |s.log| + 1 && r.0.log[..|s.log|] == s.log && r.0.log[|s.log|].SignMessage? &&
      var request := r.0.log[|s.log|].msg;
      request.message == msgHex &&
      (exists k :: 0 <= k < |s.accounts| && s.accounts[k] == withAccount && withAccount !in s.accounts[..k] &&
        request.addressNList == AddressNListForAccountIndex(k)) &&
      r.1 == match s.wallet.value.ethSignMessage(request)
             case None => Err(MessageSigningFailed)
             case Some(signed) => Ok(signed.signature)
  {
    var accountIndex := IndexOf(s.accounts, withAccount);
    match s.wallet
    case None => (s, Err(NotUnlocked))
    case Some(d) =>
      if accountIndex < 0 then (s, Err(UnknownAccount))
      else
        var request := SignMessageRequest(AddressNListForAccountIndex(accountIndex), msgHex);
        var s' := s.(log := s.log + [SignMessage(request)]);
        match d.ethSignMessage(request)
        case None => (s', Err(MessageSigningFailed))
        case Some(signed) => (s', Ok(signed.signature))
  }

  // ---------------------------------------------------------------------
  // Properties across operations

  /**
   * Unlocking a fresh keyring and then adding two accounts yields three
   * accounts, at indices 0, 1 and 2, each the device's address for its path.
   */
  lemma UnlockThenAddTwo(d: Device)
    requires d.supportsEth
    requires DerivesAll(d, 0, 3)
    ensures var (s1, r1) := Unlock(Initial, Ok(d));
      var (s2, r2) := AddAccounts(s1, 2);
      r1.Ok? && r2.Ok? && |s2.accounts| == 3 &&
      forall i :: 0 <= i < 3 ==> Some(s2.accounts[i]) == d.ethGetAddress(AddressNListForAccountIndex(i))
  {
    InitialValid();
    UnlockValid(Initial, Ok(d));
    var (s1, r1) := Unlock(Initial, Ok(d));
    assert |s1.accounts| == 1;
    AddAccountsSucceedsIff(s1, 2);
    AddAccountsValid(s1, 2);
  }

  /**
   * When signTransaction reaches the device, the path it signs on is one for
   * which the device derives exactly the address the caller named.
   */
  lemma SignTransactionUsesAccountKey(s: State, withAccount: Address, tx: Transaction)
    requires Valid(s)
    ensures var (s', r) := SignTransaction(s, withAccount, tx);
      s'.log != s.log ==>
        s.wallet.value.ethGetAddress(s'.log[|s.log|].tx.addressNList) == Some(withAccount) &&
        Valid(s')
  {
  }

  /** The same for signPersonalMessage (and so for signMessage). */
  lemma SignPersonalMessageUsesAccountKey(s: State, withAccount: Address, msgHex: string)
    requires Valid(s)
    ensures var (s', r) := SignPersonalMessage(s, withAccount, msgHex);
      s'.log != s.log ==>
        s.wallet.value.ethGetAddress(s'.log[|s.log|].msg.addressNList) == Some(withAccount) &&
        Valid(s')
  {
  }

  /**
   * Accounts are distinct when the device derives distinct addresses for
   * distinct account paths; the keyring itself does not check it.
   */
  lemma AccountsDistinct(s: State)
    requires Valid(s) && s.wallet.Some?
    requires forall i, j :: 0 <= i < j < |s.accounts| ==>
      s.wallet.value.ethGetAddress(AddressNListForAccountIndex(i)) !=
      s.wallet.value.ethGetAddress(AddressNListForAccountIndex(j))
    ensures forall i, j :: 0 <= i < j < |s.accounts| ==> s.accounts[i] != s.accounts[j]
  {
  }
}
