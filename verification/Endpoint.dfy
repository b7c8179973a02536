/** Endpoint identities. The networking library that defines them is not part of this model:
    an endpoint is its 64-bit value, and the default-constructed endpoint is the value 0. */
module Endpoint {
  type EndpointId = n: nat | n < 0x1_0000_0000_0000_0000

  const NULL_ENDPOINT: EndpointId := 0
}
