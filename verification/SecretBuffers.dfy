// The four secret buffers of the process, shared by every screen.
module SecretBuffers {
  import opened SecureText

  /** What the buffers hold. */
  datatype Texts = Texts(mnemonic: string, passphrase: string, retyped: string, again: string)

  const WIPED := Texts("", "", "", "")

  class Buffers {
    const mnemonic: SecureString
    const passphrase: SecureString
    const verification: SecureString
    const confirmation: SecureString

    /** Four sound buffers that share no memory. */
    ghost predicate Valid()
      reads this, mnemonic, passphrase, verification, confirmation
      reads mnemonic.buf, passphrase.buf, verification.buf, confirmation.buf
    {
      && mnemonic.Valid() && passphrase.Valid() && verification.Valid() && confirmation.Valid()
      && mnemonic != passphrase && mnemonic != verification && mnemonic != confirmation
      && passphrase != verification && passphrase != confirmation && verification != confirmation
      && mnemonic.buf != passphrase.buf && mnemonic.buf != verification.buf && mnemonic.buf != confirmation.buf
      && passphrase.buf != verification.buf && passphrase.buf != confirmation.buf
      && verification.buf != confirmation.buf
    }

    ghost function Contents(): Texts
      requires Valid()
      reads this, mnemonic, passphrase, verification, confirmation
      reads mnemonic.buf, passphrase.buf, verification.buf, confirmation.buf
    {
      Texts(mnemonic.Text(), passphrase.Text(), verification.Text(), confirmation.Text())
    }

    constructor ()
      ensures Valid() && Contents() == WIPED
      ensures fresh({mnemonic, passphrase, verification, confirmation})
      ensures fresh({mnemonic.buf, passphrase.buf, verification.buf, confirmation.buf})
    {
      mnemonic := new SecureString();
      passphrase := new SecureString();
      verification := new SecureString();
      confirmation := new SecureString();
    }

    method WipeAll()
      requires Valid()
      modifies mnemonic, passphrase, verification, confirmation
      modifies mnemonic.buf, passphrase.buf, verification.buf, confirmation.buf
      ensures Valid() && Contents() == WIPED
    {
      mnemonic.Clear();
      passphrase.Clear();
      verification.Clear();
      confirmation.Clear();
    }

    method PassphraseConfirmed() returns (same: bool)
      requires Valid()
      ensures same == (Contents().passphrase == Contents().again)
    {
      same := passphrase.Equals(confirmation);
    }
  }
}
