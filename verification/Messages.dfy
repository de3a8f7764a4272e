/** Chain messages, signatures and content identifiers.
    A content identifier is a collision-free hash, so it is modelled by the value it hashes. */
module Messages {

  datatype Option<+T> = None | Some(value: T)

  type Address = nat
  type MessageId = nat

  /** `payload` stands for the recipient, value, method and parameters, which nothing here inspects. */
  datatype Message = Message(
    from: Address, nonce: nat, payload: nat, gasLimit: nat, gasFeeCap: nat, gasPremium: nat)

  datatype SigType = Bls | Secp

  datatype Signature = Signature(kind: SigType, data: nat)

  datatype SignedMessage = SignedMessage(msg: Message, sig: Signature)

  datatype Cid = UnsignedCid(msg: Message) | FullCid(signed: SignedMessage)

  /** The identifier of a signed message; a BLS-signed message is identified without its signature. */
  function SignedCid(s: SignedMessage): Cid {
    if s.sig.kind == Bls then UnsignedCid(s.msg) else FullCid(s)
  }

  datatype Receipt = Receipt(exitCode: int, returnValue: nat, gasUsed: nat)
}
