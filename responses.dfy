/** What the movie-metadata API sends back, and the record script.js builds
    from it (`{ ...rawData, totalResults: parseInt(rawData.totalResults, 10) }`).
    A field the body lacks is `None`, as JavaScript reads it as `undefined`. */
module Responses {
  import opened Wrappers
  import opened JsText

  /** One item of the `Search` array. */
  datatype Movie = Movie(imdbID: string, title: string, year: string, poster: string)

  /** The decoded JSON body of a response. */
  datatype RawResponse = RawResponse(
    response: Option<string>,
    search: Option<seq<Movie>>,
    totalResults: Option<string>,
    error: Option<string>)

  /** What the request gives: a decoded body, or a rejection from the
      transport or from the JSON decoder. */
  datatype Transport = Delivered(body: RawResponse) | TransportFailed

  /** The record the page keeps: the body with `totalResults` parsed, where
      `None` stands for NaN. */
  datatype Data = Data(
    response: Option<string>,
    search: Option<seq<Movie>>,
    totalResults: Option<int>,
    error: Option<string>)

  /** `isSuccessfulResponse`. */
  predicate IsSuccessful(d: Data)
  {
    d.response == Some("True")
  }

  /** `parseInt(rawData.totalResults, 10)`: an absent field is converted to
      the text "undefined" first. */
  function ParseTotal(t: Option<string>): Option<int>
  {
    ParseInt(t.GetOr("undefined"))
  }

  function Parse(raw: RawResponse): Data
  {
    Data(raw.response, raw.search, ParseTotal(raw.totalResults), raw.error)
  }

  /** The API writes `totalResults` in decimal; parsing gives that number
      back, and every other field is kept as it came. */
  lemma ParseDecimalTotal(raw: RawResponse, n: nat)
    requires raw.totalResults == Some(DecimalText(n))
    ensures Parse(raw) == Data(raw.response, raw.search, Some(n), raw.error)
  {
    ParseIntOfDecimal("", n, false, "");
    assert "" + "" + DecimalText(n) + "" == DecimalText(n);
  }

  /** A body without `totalResults` (every failed search) gets NaN. */
  lemma ParseMissingTotal(raw: RawResponse)
    requires raw.totalResults.None?
    ensures Parse(raw).totalResults.None?
  {
    ParseIntUndefined();
  }
}
