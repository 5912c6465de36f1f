/** Types shared by the browser pages and the Flask API. */
module Common {

  /** A value that may be absent (`undefined`/`null` in JavaScript, `None` in Python). */
  datatype Option<T> = None | Some(value: T)

  /** A movie as the lists page and the `/lists` routes exchange it: `{id, title, poster_url}`. */
  datatype ListEntry = ListEntry(id: string, title: string, posterUrl: Option<string>)
}
