/**
 * The per-user preferences handlers (lambda/handlers/preferences.ts) over a table of records
 * keyed by the user's identifier. The token check is a parameter: the user it yields, if any.
 */
module Preferences {
  import opened Wrappers
  import opened Types

  const DefaultLanguage: string := "tr"

  /** The languages the update accepts: `['tr', 'en'].includes(language)`. */
  predicate Supported(language: string) {
    language == "tr" || language == "en"
  }

  datatype Record = Record(userId: string, language: string, updatedAt: string)

  /** `preferences?.language || 'tr'` for the record stored under `userId`. */
  function LanguageOf(records: map<string, Record>, userId: string): (language: string)
    ensures userId !in records ==> language == DefaultLanguage
    ensures userId in records && records[userId].language != "" ==> language == records[userId].language
    ensures language != ""
  {
    if userId in records && records[userId].language != "" then records[userId].language
    else DefaultLanguage
  }

  /** What the handlers answer: 401, 200 with a language, 400, 200 `success`, or 500. */
  datatype Reply = Unauthorized | LanguageIs(language: string) | InvalidLanguage | Saved | ServerError

  /** After a record is written, reading the same user gives the written language. */
  lemma WriteThenRead(records: map<string, Record>, userId: string, language: string, now: string)
    requires Supported(language)
    ensures LanguageOf(records[userId := Record(userId, language, now)], userId) == language
  {
  }

  /** Writing one user's record leaves every other user's language as it was. */
  lemma WriteIsolated(records: map<string, Record>, userId: string, other: string, language: string, now: string)
    requires other != userId
    ensures LanguageOf(records[userId := Record(userId, language, now)], other) == LanguageOf(records, other)
  {
  }

  class PreferencesTable {
    var records: map<string, Record>

    /** Every record sits under its own user and holds a supported language. */
    predicate Valid()
      reads this
    {
      forall id :: id in records ==> records[id].userId == id && Supported(records[id].language)
    }

    constructor ()
      ensures records == map[] && Valid()
    {
      records := map[];
    }

    /**
     * `getUserPreferences`: the caller's language, `tr` by default; reads only.
     * `available` is false when the table cannot be read.
     */
    method GetUserPreferences(user: Option<User>, available: bool) returns (reply: Reply)
      ensures user.None? ==> reply == Unauthorized
      ensures user.Some? && !available ==> reply == ServerError
      ensures user.Some? && available ==> reply == LanguageIs(LanguageOf(records, user.value.sub))
      ensures Valid() && reply.LanguageIs? ==> Supported(reply.language)
    {
      if user.None? {
        return Unauthorized;
      }
      if !available {
        return ServerError;
      }
      var language := LanguageOf(records, user.value.sub);
      reply := LanguageIs(language);
    }

    /**
     * `updateUserPreferences`: validates the language, then overwrites the caller's record
     * (last write wins). `available` is false when the write fails.
     */
    method UpdateUserPreferences(user: Option<User>, language: Option<string>, now: string, available: bool)
      returns (reply: Reply)
      modifies this
      ensures user.None? ==> reply == Unauthorized && records == old(records)
      ensures user.Some? && (language.None? || !Supported(language.value)) ==>
                reply == InvalidLanguage && records == old(records)
      ensures user.Some? && language.Some? && Supported(language.value) && available ==>
                reply == Saved &&
                records == old(records)[user.value.sub := Record(user.value.sub, language.value, now)]
      ensures user.Some? && language.Some? && Supported(language.value) && !available ==>
                reply == ServerError && records == old(records)
      ensures old(Valid()) ==> Valid()
    {
      if user.None? {
        return Unauthorized;
      }
      if language.None? || language.value == "" || !Supported(language.value) {
        return InvalidLanguage;
      }
      var record := Record(user.value.sub, language.value, now);
      if !available {
        return ServerError;
      }
      records := records[user.value.sub := record];
      reply := Saved;
    }
  }
}
