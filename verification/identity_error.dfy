/** The identity-layer errors raised by the DID manager, the resolvers, the trust graph
    and credential verification (messages reduced to the value they name). */
module IdentityErrors {
  datatype IdentityError =
    | DidNotFound(did: string)
    | InvalidDid(reason: string)
    | DuplicateDid(did: string)
    | CredentialVerification(reason: string)
    | InvalidTrustWeight(weight: real)
    | DidResolution(reason: string)
}
