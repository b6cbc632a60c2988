/** What the policy and the vault both speak of: named records and the two classes of custody. */
module Records {
  datatype KeyClass = Machine | Interactive

  /** The primary key of a stored record. */
  datatype Identity = Identity(project: string, environment: string, name: string)
}
