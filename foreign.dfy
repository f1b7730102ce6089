/** The libraries the build-resolution logic calls but does not implement, as functions the
    caller supplies: they are parameters of the model, not part of it. */
module Foreign {
  import opened Js
  import opened Timestamp

  datatype Host = Host(
    /** `semver.satisfies(version, range)`. */
    satisfies: (string, Value) -> bool,
    /** `new Date(text)`, read back as local calendar fields. */
    dateOfText: string -> DateFields,
    /** `Date.prototype.getTime`: the instant the fields denote, as a number of milliseconds. */
    getTime: DateFields -> int,
    /** `path.join(a, b)`. */
    join: (string, string) -> string)
}
