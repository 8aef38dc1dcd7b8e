/** The document stored per user in the presence store, with its defaults. */
module UserRecord {
  import opened Wrappers
  import opened KotlinNumbers

  /** A timestamp read from the client clock; carried, never compared. */
  datatype Timestamp = Timestamp(seconds: int, nanoseconds: int)

  /**
   * One stored user. Latitude and longitude are doubles in the app; here
   * they are carried as reals and never computed with.
   */
  datatype User = User(
    userId: string,
    latitude: real,
    longitude: real,
    lastUpdated: Option<Timestamp>,
    isSharing: bool,
    sharingExpiry: Long   // milliseconds since the epoch
  )

  /** The record the no-argument constructor builds. */
  const DefaultUser: User := User("", 0.0, 0.0, None, false, 0)
}
