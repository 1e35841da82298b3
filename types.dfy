/** Records shared by the backend handlers and the frontend pages (lambda/types/index.ts). */
module Types {
  import opened Wrappers

  /** One photo of the calendar: its ISO `YYYY-MM-DD` date and a locator for its bytes. */
  datatype DailyImage = DailyImage(date: string, url: string)

  /** A signed-in user as the identity provider reports it. */
  datatype User = User(email: string, sub: string)

  /**
   * The outcome of a `fetch(...)` followed by `response.json()` in the frontend:
   * either it threw, or it produced a body whose list field may be absent.
   */
  datatype Fetch<T> = Failed | Fetched(field: Option<T>)

  /** `data.items || []`: an absent list field reads as the empty list. */
  function OrEmpty<T>(field: Option<seq<T>>): seq<T> {
    field.GetOr([])
  }
}
