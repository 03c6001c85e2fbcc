/** Symbolic cryptography: a sealed message opens under exactly its own key. */
module Crypto {
  import opened Bytes

  // A connection, standing for the socket object's address and its peer's address and port.
  type Socket = nat

  // The modulus of an RSA key pair; holding it as "own" stands for the private half.
  type Key = nat

  /** What one send puts on a socket and one receive takes off it: text that parses as
      a number, the text "spb" (any other text that is no number is handled as it is),
      or something sealed. */
  datatype Message =
    | KeyText(modulus: Key)
    | KeyRequest
    | RsaSealed(to: Key, payload: Bytes)
    | AesSealed(key: Bytes, payload: Bytes)

  const SERVER_KEY: Bytes := "2B7E151628AED2A6ABF7158809CF4F3C2B7E151628AED2A6ABF7158809CF4F3C"

  function Octets(n: nat): (r: nat)
    ensures r >= 1
  {
    if n == 0 then 1 else 256 * Octets(n - 1)
  }

  /** PKCS #1 v1.5 pads a message with at least 11 octets (section 7.2.1 of RFC 8017),
      so a modulus of fewer octets than that and the message cannot seal it. */
  predicate Refuses(modulus: Key, length: nat) {
    modulus < Octets(length + 10)
  }

  /** How many octets a number has, written without leading zeros. */
  function OctetLength(n: nat): nat {
    if n == 0 then 0 else 1 + OctetLength(n / 256)
  }

  lemma {:induction false} OctetsBound(n: nat, length: nat)
    ensures OctetLength(n) <= length <==> n < Octets(length)
    decreases length
  {
    if length > 0 && n > 0 {
      OctetsBound(n / 256, length - 1);
    }
  }

  /** A message is refused exactly when the modulus lacks 11 octets over it. */
  lemma RefusedExactly(modulus: Key, length: nat)
    ensures Refuses(modulus, length) <==> OctetLength(modulus) < length + 11
  {
    OctetsBound(modulus, length + 10);
  }

  /** The library's key constructor throws for an even modulus. */
  predicate Loads(m: Message) {
    m.KeyText? && m.modulus % 2 == 1
  }

  predicate RefusesServerKey(modulus: Key) {
    Refuses(modulus, |SERVER_KEY|)
  }

  /** RSA decryption with one's own private key; None is the library's exception. */
  function RsaOpen(own: Key, m: Message): Option<Bytes> {
    if m.RsaSealed? && m.to == own then Some(m.payload) else None
  }

  /** Authenticated decryption; None is the library's exception. */
  function AesOpen(key: Bytes, m: Message): Option<Bytes> {
    if m.AesSealed? && m.key == key then Some(m.payload) else None
  }

  /** An insert that keeps an existing entry. */
  function Insert(keys: map<Socket, Key>, sock: Socket, key: Key): map<Socket, Key> {
    if sock in keys then keys else keys[sock := key]
  }

  /** The server's key container. */
  class Cryptography {
    const publicKey: Key
    var keys: map<Socket, Key>

    constructor (publicKey: Key)
      ensures this.publicKey == publicKey && keys == map[]
    {
      this.publicKey := publicKey;
      keys := map[];
    }

    method PushNewClientKey(sock: Socket, key: Key)
      modifies this
      ensures keys == Insert(old(keys), sock, key)
      ensures sock in keys
    {
      if sock !in keys {
        keys := keys[sock := key];
      }
    }

    method RemoveClientKey(sock: Socket)
      modifies this
      ensures keys == old(keys) - {sock}
    {
      keys := keys - {sock};
    }

    /** Sealing for a client; what comes out only that client can open. */
    method RsaEncrypt(sock: Socket, plaintext: Bytes) returns (r: Option<Message>)
      ensures r.Some? <==> sock in keys && !Refuses(keys[sock], |plaintext|)
      ensures r.Some? ==> forall own :: RsaOpen(own, r.value) == if own == keys[sock] then Some(plaintext) else None
    {
      if sock !in keys || Refuses(keys[sock], |plaintext|) {
        return None;
      }
      return Some(RsaSealed(keys[sock], plaintext));
    }
  }
}
