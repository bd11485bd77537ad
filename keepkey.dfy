/**
 * The KeepKey keyring object: the paired wallet and the account list are
 * fields its methods update in place; `log` records, for proofs only, the
 * requests that reached the device. Every method is proved to behave as the
 * matching operation of KeyringModel on the object's state.
 */
module KeepKey {
  import opened Wrappers
  import opened Bip32
  import opened KeyringModel

  /** The version option of signTypedData. */
  datatype TypedDataVersion = V4

  /** The outcome of a call that can only reject. */
  datatype Rejection = Rejected(error: Error)

  class KeepKeyKeyring {
    var wallet: Option<Device>
    var accounts: seq<Address>
    ghost var log: seq<Request>

    ghost function State(): KeyringModel.State
      reads this
    {
      KeyringModel.State(wallet, accounts, log)
    }

    ghost predicate Valid()
      reads this
    {
      KeyringModel.Valid(State())
    }

    constructor ()
      ensures Valid() && State() == Initial
    {
      wallet := None;
      accounts := [];
      log := [];
    }

    /** isUnlocked: the keyring holds a paired wallet; a locked one has no accounts. */
    function IsUnlocked(): (unlocked: bool)
      reads this
      ensures unlocked <==> wallet.Some?
      ensures Valid() && !unlocked ==> accounts == [] && log == []
    {
      wallet != None
    }

    /** unlock, with `paired` standing for the outcome of pairing over WebUSB. */
    method Unlock(paired: Result<Device, string>) returns (r: Result<string, Error>)
      requires Valid()
      modifies this
      ensures Valid()
      ensures (State(), r) == KeyringModel.Unlock(old(State()), paired)
    {
      UnlockValid(State(), paired);
      if IsUnlocked() {
        return Ok("already unlocked");
      }
      if paired.Err? {
        return Err(PairingFailed(paired.error));
      }
      var device := paired.value;
      if !device.supportsEth {
        return Err(UnsupportedDevice);
      }
      wallet := Some(device);
      r := AddAccount();
    }

    /** addAccount: ask the device for the address of index |accounts| and push it. */
    method AddAccount() returns (r: Result<Address, Error>)
      requires Valid()
      modifies this`accounts, this`log
      ensures Valid()
      ensures (State(), r) == KeyringModel.AddAccount(old(State()))
      ensures r.Ok? ==> accounts == old(accounts) + [r.value]
      ensures r.Err? ==> accounts == old(accounts)
    {
      if wallet == None {
        return Err(NotUnlocked);
      }
      AddAccountValid(State());
      var n := |accounts|;
      var path := AddressNListForAccountIndex(n);
      log := log + [GetAddress(path)];
      var address := wallet.value.ethGetAddress(path);
      if address == None {
        return Err(DerivationFailed);
      }
      accounts := accounts + [address.value];
      return Ok(address.value);
    }

    /** addAccounts: call addAccount `n` times in sequence and collect the addresses. */
    method AddAccounts(n: int := 1) returns (r: Result<seq<Address>, Error>)
      requires Valid()
      modifies this`accounts, this`log
      ensures Valid()
      ensures (State(), r) == KeyringModel.AddAccounts(old(State()), n)
    {
      var out: seq<Address> := [];
      var i := 0;
      PrependAssociates([], [], KeyringModel.AddAccounts(State(), n));
      while i < n
        invariant Valid()
        invariant KeyringModel.AddAccounts(old(State()), n) == Prepend(out, KeyringModel.AddAccounts(State(), n - i))
        decreases n - i
      {
        AddAccountsStep(State(), n - i);
        var address := AddAccount();
        if address.Err? {
          return Err(address.error);
        }
        PrependAssociates(out, [address.value], KeyringModel.AddAccounts(State(), n - i - 1));
        out := out + [address.value];
        i := i + 1;
      }
      assert out + [] == out;
      return Ok(out);
    }

    /** getAccounts: a copy of the account list, each entry the device's address for its index. */
    method GetAccounts() returns (r: seq<Address>)
      ensures r == accounts
      ensures Valid() && wallet.Some? ==>
        forall i :: 0 <= i < |r| ==> wallet.value.ethGetAddress(AddressNListForAccountIndex(i)) == Some(r[i])
    {
      r := accounts;
    }

    /** signTransaction: the guards in order, then one request to the device. */
    method SignTransaction(withAccount: Address, tx: Transaction) returns (r: Result<TxSignature, Error>)
      requires Valid()
      modifies this`log
      ensures Valid()
      ensures (State(), r) == KeyringModel.SignTransaction(old(State()), withAccount, tx)
    {
      if wallet == None {
        return Err(NotUnlocked);
      }
      var accountIndex := IndexOf(accounts, withAccount);
      if accountIndex < 0 {
        return Err(UnknownAccount);
      }
      var addressNList := AddressNListForAccountIndex(accountIndex);
      if tx.to == None {
        return Err(MissingRecipient);
      }
      var request := SignTxRequestFor(addressNList, tx.to.value, tx);
      if request.Err? {
        return Err(request.error);
      }
      log := log + [SignTx(request.value)];
      var signed := wallet.value.ethSignTx(request.value);
      if signed == None {
        return Err(SigningFailed);
      }
      return Ok(SignatureBuffer(signed.value));
    }

    /** signMessage: the same call as signPersonalMessage. */
    method SignMessage(withAccount: Address, data: string) returns (r: Result<string, Error>)
      requires Valid()
      modifies this`log
      ensures Valid()
      ensures (State(), r) == KeyringModel.SignPersonalMessage(old(State()), withAccount, data)
    {
      r := SignPersonalMessage(withAccount, data);
    }

    /** signPersonalMessage: look the account up, check the lock, then one request to the device. */
    method SignPersonalMessage(withAccount: Address, msgHex: string) returns (r: Result<string, Error>)
      requires Valid()
      modifies this`log
      ensures Valid()
      ensures (State(), r) == KeyringModel.SignPersonalMessage(old(State()), withAccount, msgHex)
    {
      var accountIndex := IndexOf(accounts, withAccount);
      if wallet == None {
        return Err(NotUnlocked);
      }
      if accountIndex < 0 {
        return Err(UnknownAccount);
      }
      var addressNList := AddressNListForAccountIndex(accountIndex);
      var request := SignMessageRequest(addressNList, msgHex);
      log := log + [KeyringModel.SignMessage(request)];
      var signed := wallet.value.ethSignMessage(request);
      if signed == None {
        return Err(MessageSigningFailed);
      }
      return Ok(signed.value.signature);
    }

    // The operations below reject in every state and change nothing: they
    // have no modifies clause.

    method DecryptMessage<T>(withAccount: Address, encryptedData: T) returns (r: Rejection)
      ensures r == Rejected(NotSupported)
    {
      r := Rejected(NotSupported);
    }

    method SignTypedData<T>(withAccount: Address, typedData: T, opts: Option<TypedDataVersion>) returns (r: Rejection)
      ensures r == Rejected(NotSupported)
    {
      r := Rejected(NotSupported);
    }

    method GetEncryptionPublicKey(withAccount: Address) returns (r: Rejection)
      ensures r == Rejected(NotSupported)
    {
      r := Rejected(NotSupported);
    }

    method GetAppKeyAddress(withAccount: Address, origin: string) returns (r: Rejection)
      ensures r == Rejected(NotSupported)
    {
      r := Rejected(NotSupported);
    }

    method ExportAccount(withAccount: Address) returns (r: Rejection)
      ensures r == Rejected(NotSupported)
    {
      r := Rejected(NotSupported);
    }

    method RemoveAccount(withAccount: Address) returns (r: Rejection)
      ensures r == Rejected(NotSupported)
    {
      r := Rejected(NotSupported);
    }

    method ForgetDevice() returns (r: Rejection)
      ensures r == Rejected(NotSupported)
    {
      r := Rejected(NotSupported);
    }
  }
}
