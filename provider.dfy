/**
 * What the controller reads from the Geoapify responses.  The HTTP exchange
 * itself is not modelled: a reply is an input, either a response with its
 * status and decoded body, or the exception the HTTP client raised.
 */
module Provider {

  /** A JSON member: absent, present as null, or present with a value. */
  datatype Field<+T> = Missing | Null | Given(value: T)

  /** `$member ?? $default`: the default for an absent or null member. */
  function OrDefault<T>(f: Field<T>, default: T): T
  {
    if f.Given? then f.value else default
  }

  /** The `properties` object of a GeoJSON feature, with the members the controller reads. */
  datatype Properties = Properties(formatted: Field<string>, lat: Field<real>, lon: Field<real>, name: Field<string>)

  datatype Feature = Feature(properties: Field<Properties>)

  /** An HTTP reply: a response, or the transport exception (a timeout, a refused connection). */
  datatype Reply<+B> = Received(status: int, body: B) | Unreachable(message: string)

  /** Laravel's `successful()`: a 2xx status. */
  predicate Successful(status: int)
  {
    200 <= status < 300
  }

  /** `collect($response->json('features'))`: an absent or null `features` is an empty collection. */
  function FeatureList(features: Field<seq<Feature>>): seq<Feature>
  {
    if features.Given? then features.value else []
  }
}
