/** vault/vault.go: a file of sealed keys that is only appended to, and the replay that opens it. */
module Vault {
  import opened Codec
  import opened Wrappers

  const SALT_SIZE := 32
  const KEY_SIZE := 64

  type PrivateKey = k: Bytes | |k| == KEY_SIZE witness seq(KEY_SIZE, _ => 0)
  type Token = Bytes

  /** An ideal cipher under the vault's key: sealing may be randomized, opening undoes it. */
  datatype Cipher = Cipher(open: Bytes -> Option<PrivateKey>, publicKey: PrivateKey -> Token)

  /** A record has a one-byte length, so nothing longer than 255 bytes comes back. */
  ghost predicate Seals(cipher: Cipher, sealed: Bytes, key: PrivateKey) {
    |sealed| < 256 && cipher.open(sealed) == Some(key)
  }

  function Record(sealed: Bytes): Bytes {
    [|sealed| % 256] + sealed
  }

  /** The records of a list of sealed keys. */
  function Log(sealed: seq<Bytes>): Bytes {
    if sealed == [] then [] else Record(sealed[0]) + Log(sealed[1..])
  }

  ghost predicate SealsAll(cipher: Cipher, sealed: seq<Bytes>, keys: seq<PrivateKey>) {
    |sealed| == |keys| && forall i :: 0 <= i < |keys| ==> Seals(cipher, sealed[i], keys[i])
  }

  function SecretsOf(cipher: Cipher, keys: seq<PrivateKey>): map<Token, PrivateKey> {
    if keys == [] then map[]
    else SecretsOf(cipher, keys[..|keys| - 1])[cipher.publicKey(keys[|keys| - 1]) := keys[|keys| - 1]]
  }

  lemma SecretsOneMore(cipher: Cipher, keys: seq<PrivateKey>, key: PrivateKey)
    ensures SecretsOf(cipher, keys + [key]) == SecretsOf(cipher, keys)[cipher.publicKey(key) := key]
  {
    assert (keys + [key])[..|keys|] == keys;
  }

  /** Reopening finds the secrets of the vault that wrote the file, and its own key besides. */
  lemma {:induction false} ReopenedSecrets(cipher: Cipher, keys: seq<PrivateKey>)
    requires keys != []
    ensures SecretsOf(cipher, keys) == map[cipher.publicKey(keys[0]) := keys[0]] + SecretsOf(cipher, keys[1..])
  {
    if |keys| == 1 {
      assert keys == [] + [keys[0]] && keys[1..] == [];
      SecretsOneMore(cipher, [], keys[0]);
    } else {
      var front, last := keys[..|keys| - 1], keys[|keys| - 1];
      ReopenedSecrets(cipher, front);
      assert keys == front + [last] && keys[1..] == front[1..] + [last];
      SecretsOneMore(cipher, front, last);
      SecretsOneMore(cipher, front[1..], last);
    }
  }

  lemma {:induction false} LogOneMore(sealed: seq<Bytes>, last: Bytes)
    ensures Log(sealed + [last]) == Log(sealed) + Record(last)
  {
    if sealed == [] {
      assert sealed + [last] == [last];
      assert Log([last]) == Record(last) + Log([last][1..]);
    } else {
      LogOneMore(sealed[1..], last);
      assert (sealed + [last])[1..] == sealed[1..] + [last];
      Associates(Record(sealed[0]), Log(sealed[1..]), Record(last));
    }
  }

  /** One record at a position of the file, and what is left after it. */
  lemma RecordReads(file: Bytes, position: nat, sealed: seq<Bytes>)
    requires position <= |file| && file[position..] == Log(sealed)
    requires sealed != [] && |sealed[0]| < 256
    ensures var size := |sealed[0]|;
            && position + 1 + size <= |file| && file[position] as int == size
            && file[position + 1..position + 1 + size] == sealed[0]
            && file[position + 1 + size..] == Log(sealed[1..])
  {
    var size, rest := |sealed[0]|, file[position..];
    Splits(rest, [size], sealed[0], Log(sealed[1..]));
    SliceWithin(file, position, 1, 1 + size);
    SliceWithin(file, position, 1 + size, 1 + size);
    assert rest[0] == file[position] == [size][0];
  }

  /** Every key in the file is found under its token, or another key with that token is. */
  lemma {:induction false} EveryKeyIsFound(cipher: Cipher, keys: seq<PrivateKey>, i: nat)
    requires i < |keys|
    ensures var token := cipher.publicKey(keys[i]);
            && token in SecretsOf(cipher, keys)
            && cipher.publicKey(SecretsOf(cipher, keys)[token]) == token
            && SecretsOf(cipher, keys)[token] in keys
  {
    if i < |keys| - 1 {
      EveryKeyIsFound(cipher, keys[..|keys| - 1], i);
    }
  }

  /** The read loop: one record at a time until the end of the file. */
  method Replay(cipher: Cipher, file: Bytes, ghost salt: Bytes, ghost sealed: seq<Bytes>, ghost keys: seq<PrivateKey>)
      returns (secrets: map<Token, PrivateKey>, firstKey: PrivateKey)
    requires |salt| == SALT_SIZE && keys != [] && SealsAll(cipher, sealed, keys) && file == salt + Log(sealed)
    ensures secrets == SecretsOf(cipher, keys) && firstKey == keys[0]
  {
    secrets, firstKey := map[], seq(KEY_SIZE, _ => 0);
    var first, position := true, SALT_SIZE;
    ghost var k := 0;
    assert file[position..] == Log(sealed) && sealed[0..] == sealed;
    while position < |file|
      invariant 0 <= k <= |sealed| && SALT_SIZE <= position <= |file| && file[position..] == Log(sealed[k..])
      invariant first == (k == 0) && (k > 0 ==> firstKey == keys[0])
      invariant secrets == SecretsOf(cipher, keys[..k])
      decreases |file| - position
    {
      RecordReads(file, position, sealed[k..]);
      var size := file[position] as int;
      var key := cipher.open(file[position + 1..position + 1 + size]).value;
      if first {
        firstKey := key;
        first := false;
      }
      assert keys[..k + 1][..k] == keys[..k] && sealed[k..][1..] == sealed[k + 1..];
      secrets := secrets[cipher.publicKey(key) := key];
      position := position + 1 + size;
      k := k + 1;
    }
    assert Log(sealed[k..]) == [] && keys[..|keys|] == keys;
  }

  class SecureVault {
    const cipher: Cipher
    var secretKey: PrivateKey
    var secrets: map<Token, PrivateKey>
    var file: Bytes
    ghost const salt: Bytes
    ghost var sealed: seq<Bytes>
    ghost var keys: seq<PrivateKey>
    /** The first key is among the secrets of a reopened vault only. */
    ghost const reopened: bool

    /** The file is the salt and one record per key, the vault's own first; the secrets are the keys. */
    ghost predicate Stored()
      reads this
    {
      && |salt| == SALT_SIZE && keys != [] && keys[0] == secretKey
      && SealsAll(cipher, sealed, keys)
      && file == salt + Log(sealed)
      && secrets == SecretsOf(cipher, if reopened then keys else keys[1..])
    }

    /** `NewSecureVault`. The first key is not among the secrets until the vault is reopened. */
    constructor (cipher: Cipher, salt: Bytes, secret: PrivateKey, sealedSecret: Bytes)
      requires |salt| == SALT_SIZE && Seals(cipher, sealedSecret, secret)
      ensures Stored() && !reopened && keys == [secret] && secrets == map[] && secretKey == secret && this.cipher == cipher
    {
      this.cipher, this.salt, secretKey, secrets := cipher, salt, secret, map[];
      file := salt + Record(sealedSecret);
      sealed, keys, reopened := [sealedSecret], [secret], false;
      assert Log([sealedSecret]) == Record(sealedSecret) + Log([sealedSecret][1..]);
    }

    method GenerateNewKey(newKey: PrivateKey, sealedKey: Bytes) returns (token: Token)
      requires Stored() && Seals(cipher, sealedKey, newKey)
      modifies this
      ensures Stored() && keys == old(keys) + [newKey] && secretKey == old(secretKey)
      ensures token == cipher.publicKey(newKey) && secrets == old(secrets)[token := newKey]
    {
      token := cipher.publicKey(newKey);
      LogOneMore(sealed, sealedKey);
      SecretsOneMore(cipher, if reopened then keys else keys[1..], newKey);
      assert (keys + [newKey])[1..] == keys[1..] + [newKey];
      Associates(salt, Log(sealed), Record(sealedKey));
      file := file + Record(sealedKey);
      sealed, keys := sealed + [sealedKey], keys + [newKey];
      secrets := secrets[token := newKey];
    }

    /** `OpenVaultFromPassword` with the right password: the replay restores every key, the first one
        as the vault's own and among the secrets. */
    constructor Open(cipher: Cipher, file: Bytes, ghost salt: Bytes, ghost sealed: seq<Bytes>, ghost keys: seq<PrivateKey>)
      requires |salt| == SALT_SIZE && keys != [] && SealsAll(cipher, sealed, keys) && file == salt + Log(sealed)
      ensures Stored() && reopened && this.keys == keys && secretKey == keys[0] && this.file == file && this.cipher == cipher
      ensures secrets == map[cipher.publicKey(keys[0]) := keys[0]] + SecretsOf(cipher, keys[1..])
    {
      ReopenedSecrets(cipher, keys);
      var replayed, first := Replay(cipher, file, salt, sealed, keys);
      this.cipher, this.file, secretKey, secrets := cipher, file, first, replayed;
      this.salt, this.sealed, this.keys, reopened := salt, sealed, keys, true;
    }
  }
}
