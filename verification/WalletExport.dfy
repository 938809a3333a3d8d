// Building a watch-only export: it borrows the key slot the signer uses.
module WalletExports {
  import opened Wrappers
  import opened Outputs
  import opened Engine
  import opened SigningEngine

  datatype WalletExport = WalletExport(master: fingerprint, account: nat, accounts: seq<string>, cosigners: seq<string>)

  const PURPOSES: seq<nat> := [84, 86, 49, 44]
  const SCRIPT_TYPES: seq<nat> := [2, 1]

  /** Setting the top bit of a 32-bit path element. */
  function Hardened(n: nat): nat {
    if n < 0x8000_0000 then n + 0x8000_0000 else n
  }

  function CoinType(n: Network): nat {
    if n == Mainnet then 0 else 1
  }

  function AccountPath(purpose: nat, n: Network, account: nat): seq<nat> {
    [Hardened(purpose), Hardened(CoinType(n)), Hardened(account)]
  }

  function CosignerPath(scriptType: nat, n: Network, account: nat): seq<nat> {
    AccountPath(48, n, account) + [Hardened(scriptType)]
  }

  function AccountPaths(n: Network, account: nat): seq<seq<nat>> {
    seq(|PURPOSES|, i requires 0 <= i < |PURPOSES| => AccountPath(PURPOSES[i], n, account))
  }

  function CosignerPaths(n: Network, account: nat): seq<seq<nat>> {
    seq(|SCRIPT_TYPES|, i requires 0 <= i < |SCRIPT_TYPES| => CosignerPath(SCRIPT_TYPES[i], n, account))
  }

  predicate AllDerive(c: Crypto, key: Key, paths: seq<seq<nat>>) {
    forall i | 0 <= i < |paths| :: c.accountKey(key, paths[i]).Some?
  }

  function Xpubs(c: Crypto, key: Key, paths: seq<seq<nat>>): seq<string>
    requires AllDerive(c, key, paths)
  {
    seq(|paths|, i requires 0 <= i < |paths| => c.accountKey(key, paths[i]).value)
  }

  /** All six keys of the wallet, or nothing. */
  function ExportOf(c: Crypto, key: Key, n: Network, account: nat): Option<WalletExport> {
    var accounts, cosigners := AccountPaths(n, account), CosignerPaths(n, account);
    if c.fingerprintOf(key).Some? && AllDerive(c, key, accounts) && AllDerive(c, key, cosigners) then
      Some(WalletExport(c.fingerprintOf(key).value, account, Xpubs(c, key, accounts), Xpubs(c, key, cosigners)))
    else None
  }

  /** What an export is made with: the libraries, and the network the device is for. */
  datatype Library = Library(crypto: Crypto, network: Network)

  /** The export of a mnemonic; None when it is not valid or some key is not there. */
  function ExportFrom(lib: Library, mnemonic: string, passphrase: string, account: nat): Option<WalletExport> {
    if !lib.crypto.validMnemonic(mnemonic) then None
    else match lib.crypto.masterFromMnemonic(mnemonic, passphrase, lib.network == Mainnet)
         case None => None
         case Some(key) => ExportOf(lib.crypto, key, lib.network, account)
  }

  method DeriveAll(c: Crypto, key: Key, paths: seq<seq<nat>>) returns (xpubs: Option<seq<string>>)
    ensures xpubs == if AllDerive(c, key, paths) then Some(Xpubs(c, key, paths)) else None
  {
    var done: seq<string> := [];
    for i := 0 to |paths|
      invariant |done| == i && forall j | 0 <= j < i :: c.accountKey(key, paths[j]) == Some(done[j])
    {
      var xpub := c.accountKey(key, paths[i]);
      if xpub == None {
        return None;
      }
      done := done + [xpub.value];
    }
    assert AllDerive(c, key, paths) && done == Xpubs(c, key, paths);
    return Some(done);
  }

  /** An export that fails validation leaves the key slot as it is; any other one
      leaves it empty, and yields everything or nothing. */
  method BuildWalletExport(lib: Library, slot: KeySlot, mnemonic: string, passphrase: string, account: nat)
    returns (wallet: Option<WalletExport>)
    modifies slot
    ensures slot.key == if lib.crypto.validMnemonic(mnemonic) then None else old(slot.key)
    ensures wallet == ExportFrom(lib, mnemonic, passphrase, account)
  {
    var c, n := lib.crypto, lib.network;
    if !c.validMnemonic(mnemonic) {
      return None;
    }
    slot.key := None;
    wallet := None;
    var master := c.masterFromMnemonic(mnemonic, passphrase, n == Mainnet);
    if master.Some? {
      slot.key := master;
      var fp := c.fingerprintOf(slot.key.value);
      if fp.Some? {
        var accounts := DeriveAll(c, slot.key.value, AccountPaths(n, account));
        if accounts.Some? {
          var cosigners := DeriveAll(c, slot.key.value, CosignerPaths(n, account));
          if cosigners.Some? {
            wallet := Some(WalletExport(fp.value, account, accounts.value, cosigners.value));
          }
        }
      }
    }
    slot.key := None;
  }

  /** To an engine that shares the slot, an export is one step of its machine. */
  method ExportBeside(engine: PsbtEngine, mnemonic: string, passphrase: string, account: nat)
    returns (wallet: Option<WalletExport>)
    modifies engine.slot
    ensures engine.Now() == Step(engine.crypto, old(engine.Now()), Export(mnemonic, passphrase))
  {
    wallet := BuildWalletExport(Library(engine.crypto, engine.network), engine.slot, mnemonic, passphrase, account);
  }
}
