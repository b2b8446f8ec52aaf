/**
 * The allow-list gate: the two contract addresses whose events the mapping
 * processes. Every other emitter is ignored.
 */
module AllowList {
  import opened Runtime

  const FirstContractHex: string := "0x7778d1011e19c0091c930d4befa2b0e47441562a"
  const SecondContractHex: string := "0x0b05ba1c72325b11b5553216c9e57257f82b71d8"

  /** The array `isAllowedContract` fills on its first call. */
  function AllowedContracts(host: Host): (r: seq<Bytes>)
    ensures r != []
  {
    [host.bytesFromHex(FirstContractHex), host.bytesFromHex(SecondContractHex)]
  }

  /** `allowedContracts.indexOf(contract) !== -1` once the list is filled. */
  predicate IsAllowed(host: Host, contract: Bytes)
  {
    contract in AllowedContracts(host)
  }

  /** Allowed exactly when the address equals one of the two listed ones. */
  lemma IsAllowedIff(host: Host, contract: Bytes)
    ensures IsAllowed(host, contract)
        <==> contract == host.bytesFromHex(FirstContractHex) || contract == host.bytesFromHex(SecondContractHex)
  {
  }
}
