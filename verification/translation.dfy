/** `translate_text`: one call into the translation backend.  The backend is a
    foreign network service; it is a parameter of type `Backend`, a total
    function from the request it receives to its reply, so nothing is assumed
    about what it answers. */
module Translation {
  import opened Wrappers
  import opened Languages

  /** A backend request: without a source code (the library then detects
      the language) or with an explicit one. */
  datatype Request =
    | AutoDetect(text: string, dest: Code)
    | Explicit(text: string, src: Code, dest: Code)

  /** A backend reply: the translated text and the source code the backend
      reports, or an error (the call raises). */
  datatype Reply = Translated(text: string, src: Code) | Unavailable

  type Backend = Request -> Reply

  datatype TranslateError = TranslationUnavailable

  /** What `translate_text` returns: the text and the detected language. */
  datatype Translation = Translation(text: string, detected: Code)

  /** The request `translate_text` sends for a source code. */
  function RequestFor(text: string, source: Code, target: Code): (q: Request)
    ensures q.text == text && q.dest == target
    ensures q.AutoDetect? <==> source == Auto
    ensures q.Explicit? ==> q.src == source
  {
    if source == Auto then AutoDetect(text, target) else Explicit(text, source, target)
  }

  /** `translate_text`: a backend error propagates unchanged; with `Auto` the
      detected language is the backend's, otherwise the given source code. */
  function TranslateText(backend: Backend, text: string, source: Code, target: Code)
    : (r: Result<Translation, TranslateError>)
    ensures r.Failure? <==> backend(RequestFor(text, source, target)).Unavailable?
    ensures r.Success? ==> r.value.text == backend(RequestFor(text, source, target)).text
    ensures r.Success? && source == Auto ==>
              r.value.detected == backend(AutoDetect(text, target)).src
    ensures r.Success? && source != Auto ==> r.value.detected == source
  {
    match backend(RequestFor(text, source, target))
    case Unavailable => Failure(TranslationUnavailable)
    case Translated(out, src) =>
      Success(Translation(out, if source == Auto then src else source))
  }

  /** Two backends that give the same translation for a request, whatever
      source language each of them reports. */
  ghost predicate AgreeOnText(b1: Backend, b2: Backend, q: Request)
  {
    && b1(q).Unavailable? == b2(q).Unavailable?
    && (b1(q).Translated? ==> b1(q).text == b2(q).text)
  }

  /** With an explicit source the backend's own report of the source language
      is ignored: it is never checked against the caller's choice. */
  lemma ExplicitSourceIsNotRevalidated(b1: Backend, b2: Backend, text: string, source: Code, target: Code)
    requires source != Auto
    requires AgreeOnText(b1, b2, Explicit(text, source, target))
    ensures TranslateText(b1, text, source, target) == TranslateText(b2, text, source, target)
  {
  }

  /** With auto-detection the reported language is exactly the backend's:
      backends that differ only in their report give different results. */
  lemma AutoDetectReportsBackendLanguage(b1: Backend, b2: Backend, text: string, target: Code)
    requires AgreeOnText(b1, b2, AutoDetect(text, target))
    requires b1(AutoDetect(text, target)).Translated?
    requires b1(AutoDetect(text, target)).src != b2(AutoDetect(text, target)).src
    ensures TranslateText(b1, text, Auto, target) != TranslateText(b2, text, Auto, target)
    ensures TranslateText(b1, text, Auto, target).value.text
            == TranslateText(b2, text, Auto, target).value.text
  {
  }
}
