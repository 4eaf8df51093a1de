/**
 * The records that flow between the services, the store and the views.
 * A GeoRecord is the provider's JSON object for one IP; a string field that the
 * provider may omit or send as null is an Option. The latitude/longitude numbers
 * that fetchGeoData derives from `loc` are floating point and are not modelled.
 */
module Records {
  import opened Wrappers

  datatype GeoRecord = GeoRecord(
    ip: string,
    city: Option<string>,
    region: Option<string>,
    country: Option<string>,
    loc: Option<string>,
    hostname: Option<string>,
    org: Option<string>,
    postal: Option<string>,
    timezone: Option<string>)

  /** The user object the auth backend returns next to the token. */
  datatype User = User(name: string, email: string)

  /** JavaScript truthiness of an optional string: present and not "". */
  predicate Truthy(o: Option<string>) {
    o.Some? && o.value != ""
  }

  /** The key `record => record.ip`. */
  function RecordIp(g: GeoRecord): string { g.ip }
}
