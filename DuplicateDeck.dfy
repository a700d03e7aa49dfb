/** The "Duplicate" dialog of a deck card (components/DuplicateDeckButton.js):
    its form starts from the original deck's fields, each input edits one
    field, and `handleDuplicate` drives the open/loading state around a call to
    the `duplicateDeck` server action, whose outcome is a parameter. */
module DuplicateDeck {
  import opened Js
  import opened Records

  /** The dialog's `formData`. */
  datatype DuplicateForm = DuplicateForm(company: string, slug: string, coverLetter: string)

  /** How the awaited `duplicateDeck(...)` call ends: it resolves with a result
      whose `success` is truthy or not, or it rejects (throws). */
  datatype CallOutcome = Resolved(success: bool) | Rejected

  const CopySuffix: string := " (Copy)"
  const SlugSuffix: string := "-copy"

  /** `deck.cover_letter?.content || ""` */
  function InitialCoverLetter(deck: DeckRow): (t: string)
    ensures t != "" <==>
              deck.coverLetter.Some? && deck.coverLetter.value.content.Some? &&
              deck.coverLetter.value.content.value != ""
    ensures t != "" ==> t == deck.coverLetter.value.content.value
  {
    match deck.coverLetter
    case None => ""
    case Some(letter) => OrElse(letter.content, "")
  }

  /** The initial `formData`: the company and slug are interpolated (so a null
      column reads "null") and suffixed; the cover letter is copied when truthy.
      Stripping the suffix gives back the original text. */
  function InitialForm(deck: DeckRow): (f: DuplicateForm)
    ensures EndsWith(f.company, CopySuffix) && f.company[..|f.company| - |CopySuffix|] == Interp(deck.company)
    ensures EndsWith(f.slug, SlugSuffix) && f.slug[..|f.slug| - |SlugSuffix|] == Interp(deck.slug)
    ensures f.coverLetter == InitialCoverLetter(deck)
  {
    var company := Interp(deck.company) + CopySuffix;
    var slug := Interp(deck.slug) + SlugSuffix;
    assert company[|company| - |CopySuffix|..] == CopySuffix;
    assert company[..|company| - |CopySuffix|] == Interp(deck.company);
    assert slug[|slug| - |SlugSuffix|..] == SlugSuffix;
    assert slug[..|slug| - |SlugSuffix|] == Interp(deck.slug);
    DuplicateForm(company, slug, InitialCoverLetter(deck))
  }

  /** Two decks whose company or slug differ get different initial forms. */
  lemma InitialFormInjective(d1: DeckRow, d2: DeckRow)
    requires InitialForm(d1) == InitialForm(d2)
    ensures Interp(d1.company) == Interp(d2.company)
    ensures Interp(d1.slug) == Interp(d2.slug)
  {
  }

  /** The dialog's state. */
  class DuplicateDialog {
    const deckId: string
    var isOpen: bool
    var loading: bool
    var form: DuplicateForm

    constructor(deck: DeckRow)
      ensures deckId == deck.id && !isOpen && !loading && form == InitialForm(deck)
    {
      deckId := deck.id;
      isOpen := false;
      loading := false;
      form := InitialForm(deck);
    }

    /** The "Duplicate" button. */
    method Open()
      modifies this
      ensures isOpen && loading == old(loading) && form == old(form)
    {
      isOpen := true;
    }

    /** The "Cancel" button: closes without resetting the form. */
    method Cancel()
      modifies this
      ensures !isOpen && loading == old(loading) && form == old(form)
    {
      isOpen := false;
    }

    /** The company input: only the company changes. */
    method EditCompany(value: string)
      modifies this
      ensures form == old(form).(company := value)
      ensures form.slug == old(form.slug) && form.coverLetter == old(form.coverLetter)
      ensures isOpen == old(isOpen) && loading == old(loading)
    {
      form := form.(company := value);
    }

    /** The slug input: only the slug changes. */
    method EditSlug(value: string)
      modifies this
      ensures form == old(form).(slug := value)
      ensures form.company == old(form.company) && form.coverLetter == old(form.coverLetter)
      ensures isOpen == old(isOpen) && loading == old(loading)
    {
      form := form.(slug := value);
    }

    /** The cover-letter textarea: only the cover letter changes. */
    method EditCoverLetter(value: string)
      modifies this
      ensures form == old(form).(coverLetter := value)
      ensures form.company == old(form.company) && form.slug == old(form.slug)
      ensures isOpen == old(isOpen) && loading == old(loading)
    {
      form := form.(coverLetter := value);
    }

    /** The first half of `handleDuplicate`, up to the `await`: loading is set
        and the request sends the deck's id with the current form. */
    method StartDuplicate() returns (id: string, sent: DuplicateForm)
      modifies this
      ensures loading && isOpen == old(isOpen) && form == old(form)
      ensures id == deckId && sent == form
    {
      loading := true;
      id, sent := deckId, form;
    }

    /** The second half of `handleDuplicate`, after the `await`. A resolved call
        stops loading; a successful one also closes the dialog and calls
        `onComplete` when one was given. A rejected call throws before
        `setLoading(false)`, so loading stays as it was. */
    method FinishDuplicate(outcome: CallOutcome, hasOnComplete: bool) returns (notified: bool)
      modifies this
      ensures form == old(form)
      ensures outcome.Rejected? ==> loading == old(loading) && isOpen == old(isOpen) && !notified
      ensures outcome.Resolved? ==> !loading
      ensures outcome == Resolved(true) ==> !isOpen && notified == hasOnComplete
      ensures outcome == Resolved(false) ==> isOpen == old(isOpen) && !notified
    {
      notified := false;
      if outcome.Rejected? {
        return;
      }
      loading := false;
      if outcome.success {
        isOpen := false;
        if hasOnComplete {
          notified := true;
        }
      }
    }

    /** `handleDuplicate` as one step. */
    method HandleDuplicate(outcome: CallOutcome, hasOnComplete: bool)
      returns (id: string, sent: DuplicateForm, notified: bool)
      modifies this
      ensures id == deckId && sent == old(form) && form == old(form)
      ensures loading <==> outcome.Rejected?
      ensures isOpen <==> old(isOpen) && outcome != Resolved(true)
      ensures notified <==> outcome == Resolved(true) && hasOnComplete
    {
      id, sent := StartDuplicate();
      notified := FinishDuplicate(outcome, hasOnComplete);
    }
  }
}
