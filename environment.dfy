/** What the model takes as given instead of computing: the object-id syntax check,
    Mongoose's cast of a text to an object id, reading a date text (ISO-8601
    validity), and the weekday of a day. */
module Environment {
  import opened Wrappers
  import opened Calendar

  datatype Env = Env(
    /** validator.js `isMongoId`, which the request rules apply. */
    isMongoId: string -> bool,
    /** Mongoose's cast of a text to an object id, written as the id's canonical
        text; absent when the text does not cast, in which case a query or an update
        using it throws a cast error. Two texts that cast to the same id denote the
        same record. */
    castId: string -> Option<string>,
    /** The day a date text denotes; absent when the text is not an ISO-8601 date. */
    readDate: string -> Option<Date>,
    /** The weekday of a day. */
    weekdayOf: Date -> Weekday)

  predicate IsIso8601(env: Env, s: string) {
    env.readDate(s).Some?
  }

  /** The text casts to an object id. */
  predicate Casts(env: Env, s: string) {
    env.castId(s).Some?
  }

  /** The text casts to the id of one of `ids`. */
  predicate Found(env: Env, s: string, ids: set<string>) {
    env.castId(s).Some? && env.castId(s).value in ids
  }
}
