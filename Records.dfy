/** Rows of the record store's tables, with the columns the application reads
    and writes. A nullable column is an `Option`; `deletedAt` set means the deck
    is soft-deleted. */
module Records {
  import opened Js

  /** The authenticated user as the auth provider reports it. */
  datatype User = User(id: string, email: string)

  /** The `cover_letter` column: a wrapper object around free text. */
  datatype CoverLetter = CoverLetter(content: Option<string>)

  /** A row of the `decks` table. */
  datatype DeckRow = DeckRow(
    id: string,
    userId: string,
    company: Option<string>,
    slug: Option<string>,
    coverLetter: Option<CoverLetter>,
    resumeUrl: Option<string>,
    resumeBody: string,
    isPublic: bool,
    trackingEmail: string,
    createdAt: int,
    deletedAt: Option<string>)

  /** A row of the `profiles` table. */
  datatype ProfileRow = ProfileRow(handle: Option<string>, hasAccess: bool, priceId: Option<string>)

  /** A toast notification, with the message it shows. */
  datatype Toast = Success(text: JsValue) | Failure(text: JsValue)
}
