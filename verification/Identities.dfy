/** Who a router is, and which identities count as the same. */
module Identities {
  import opened Bytes

  datatype IpAddr = V4(v4: nat) | V6(v6: nat)

  datatype Identity = Identity(meshIp: IpAddr, ethAddress: seq<byte>, wgPublicKey: seq<byte>,
                               nickname: Option<string>) {
    /** Equality and hashing ignore the nickname. */
    function Key(): Identity {
      this.(nickname := None)
    }
  }
}
