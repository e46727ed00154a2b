/** The error conditions of the simulation and the result type that carries them. */
module Outcomes {

  datatype Error =
    | NoPathExists              // the path search found no path between the two hosts
    | HashDomainError           // a hash was reduced modulo zero candidate paths
    | CollisionSearchExhausted  // the collision search ran out of attempts

  datatype Result<T> = Ok(value: T) | Err(error: Error)
}
