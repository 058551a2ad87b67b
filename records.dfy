/** The saved-quote record and the two interface languages. */
module Records {
  import opened Wrappers

  /** The interface language: 'ko' or 'en'. */
  datatype Language = Ko | En

  /** One saved quote. `id` is opaque and `savedAt` is an epoch time in
      milliseconds. */
  datatype SavedQuote = SavedQuote(
    id: string,
    quote: string,
    author: Option<string>,
    savedAt: int,
    isFavorite: bool,
    language: Language)
}
