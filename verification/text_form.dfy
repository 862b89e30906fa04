/** The session state of the text tab and the callbacks that change it.

    Streamlit keeps the state in `st.session_state`; here it is an immutable
    `FormState` and every callback is a pure transition.  A callback that
    raises leaves the session with whatever it had assigned before raising,
    and the session carries on with that state after the error is shown. */
module TextForm {
  import opened Wrappers
  import opened Languages
  import opened Translation

  datatype FormState = FormState(
    sourceLang: Name,
    sourceLangCode: Code,
    targetLang: Name,
    targetLangCode: Code,
    inputText: string,
    translatedText: string,
    detectedLang: Option<Code>)   // absent until the first successful translation

  /** The state a callback leaves behind, and whether it raised. */
  datatype CallbackResult = CallbackResult(state: FormState, raised: bool)

  /** Both states select the same languages, by name and by code. */
  predicate SameSelection(s: FormState, t: FormState)
  {
    && s.sourceLang == t.sourceLang && s.sourceLangCode == t.sourceLangCode
    && s.targetLang == t.targetLang && s.targetLangCode == t.targetLangCode
  }

  /** The names are options of their menus and each code is what the rerun
      computes from the name beside it: the source through the source menu's
      rule, the target through the menu lookup. */
  ghost predicate WellFormed(s: FormState)
  {
    && s.sourceLang in SourceOptions()
    && SourceCodeFor(s.sourceLang) == Some(s.sourceLangCode)
    && s.targetLang in MenuNames()
    && GetLanguageCode(s.targetLang) == Some(s.targetLangCode)
  }

  /** In a well-formed state the target is a menu language, never auto-detection. */
  lemma WellFormedTargetIsConcrete(s: FormState)
    requires WellFormed(s)
    ensures GetLanguageCode(s.targetLang) == Some(s.targetLangCode)
    ensures s.targetLangCode in Menu && s.targetLangCode != Auto
  {
  }

  /** The defaults a new session starts with: English into simplified Chinese. */
  function Initial(): (s: FormState)
    ensures WellFormed(s)
    ensures s.sourceLangCode == "en" && s.targetLangCode == "zh-cn"
    ensures s.inputText == "" && s.translatedText == "" && s.detectedLang.None?
  {
    FormState(English, "en", ChineseSimplified, "zh-cn", "", "", None)
  }

  /** The menus' default indices (2 for the source, 0 for the target) point
      at the names the session starts with. */
  lemma DefaultIndicesMatchInitial()
    ensures |SourceOptions()| == 3 && SourceOptions()[2] == Initial().sourceLang
    ensures |MenuNames()| == 2 && MenuNames()[0] == Initial().targetLang
  {
  }

  /** Choosing a source language: the rerun stores the code of the name. */
  function SelectSource(s: FormState, name: Name): (r: FormState)
    requires name in SourceOptions()
    ensures r.sourceLang == name
    ensures r.sourceLangCode == Auto <==> name == AutoDetectName
    ensures name != AutoDetectName ==> r.sourceLangCode in Menu && Menu[r.sourceLangCode] == name
    ensures r == s.(sourceLang := r.sourceLang, sourceLangCode := r.sourceLangCode)
    ensures WellFormed(s) ==> WellFormed(r)
  {
    s.(sourceLang := name, sourceLangCode := SourceCodeFor(name).value)
  }

  /** Choosing a target language: the rerun stores the menu code of the name. */
  function SelectTarget(s: FormState, name: Name): (r: FormState)
    requires name in MenuNames()
    ensures r.targetLang == name
    ensures r.targetLangCode in Menu && Menu[r.targetLangCode] == name
    ensures r == s.(targetLang := r.targetLang, targetLangCode := r.targetLangCode)
    ensures WellFormed(s) ==> WellFormed(r)
  {
    s.(targetLang := name, targetLangCode := GetLanguageCode(name).value)
  }

  /** The backend request the text tab sends for a state. */
  function RequestOf(s: FormState): Request
  {
    RequestFor(s.inputText, s.sourceLangCode, s.targetLangCode)
  }

  /** `translate_callback`: nothing happens for empty input; otherwise the
      backend is called first and the two result fields are assigned only
      after it returned, so a failure leaves the state as it was. */
  function TranslateCallback(backend: Backend, s: FormState): (r: CallbackResult)
    ensures s.inputText == "" ==> r == CallbackResult(s, false)
    ensures r.raised <==> s.inputText != "" && backend(RequestOf(s)).Unavailable?
    ensures r.raised ==> r.state == s
    ensures SameSelection(s, r.state) && r.state.inputText == s.inputText
    ensures !r.raised && s.inputText != "" ==>
              && r.state.translatedText == backend(RequestOf(s)).text
              && r.state.detectedLang.Some?
              && (s.sourceLangCode != Auto ==> r.state.detectedLang == Some(s.sourceLangCode))
              && (s.sourceLangCode == Auto ==> r.state.detectedLang == Some(backend(RequestOf(s)).src))
  {
    if s.inputText == "" then CallbackResult(s, false)
    else
      match TranslateText(backend, s.inputText, s.sourceLangCode, s.targetLangCode)
      case Failure(_) => CallbackResult(s, true)
      case Success(t) =>
        CallbackResult(s.(translatedText := t.text, detectedLang := Some(t.detected)), false)
  }

  /** Empty input never reaches the backend: the outcome does not depend on it. */
  lemma EmptyInputNeverCallsBackend(b1: Backend, b2: Backend, s: FormState)
    requires s.inputText == ""
    ensures TranslateCallback(b1, s) == TranslateCallback(b2, s)
  {
  }

  /** A translation writes both result fields or neither of them. */
  lemma TranslateIsAllOrNothing(backend: Backend, s: FormState)
    ensures var t := TranslateCallback(backend, s).state;
            t == s || (t.translatedText == backend(RequestOf(s)).text && t.detectedLang.Some?)
  {
  }

  /** Editing the input area: Streamlit stores the new text and, when it
      differs from the old one, runs `translate_callback`. */
  function EditInput(backend: Backend, s: FormState, text: string): (r: CallbackResult)
    ensures r.state.inputText == text
    ensures SameSelection(s, r.state)
    ensures text == s.inputText ==> r == CallbackResult(s, false)
    ensures r.raised ==> r.state == s.(inputText := text)
    ensures text == "" ==> !r.raised && r.state.translatedText == s.translatedText
                           && r.state.detectedLang == s.detectedLang
    ensures r.raised <==> text != s.inputText && text != ""
                          && backend(RequestFor(text, s.sourceLangCode, s.targetLangCode)).Unavailable?
    ensures !r.raised && text != s.inputText && text != "" ==>
              && r.state.translatedText == backend(RequestFor(text, s.sourceLangCode, s.targetLangCode)).text
              && r.state.detectedLang.Some?
              && (s.sourceLangCode != Auto ==> r.state.detectedLang == Some(s.sourceLangCode))
              && (s.sourceLangCode == Auto ==>
                    r.state.detectedLang == Some(backend(AutoDetect(text, s.targetLangCode)).src))
  {
    if text == s.inputText then CallbackResult(s, false)
    else TranslateCallback(backend, s.(inputText := text))
  }

  /** After an edit to non-empty text that the backend translates, the
      result shown is the translation of the new text. */
  lemma EditTranslatesNewText(backend: Backend, s: FormState, text: string)
    requires text != "" && text != s.inputText
    requires backend(RequestFor(text, s.sourceLangCode, s.targetLangCode)).Translated?
    ensures EditInput(backend, s, text).state.translatedText
            == backend(RequestFor(text, s.sourceLangCode, s.targetLangCode)).text
  {
  }

  /** `clear_input`: both text fields are emptied, nothing else changes. */
  function ClearInput(s: FormState): (r: FormState)
    ensures r.inputText == "" && r.translatedText == ""
    ensures SameSelection(s, r)
    ensures r.detectedLang == s.detectedLang
    ensures WellFormed(s) ==> WellFormed(r)
  {
    s.(inputText := "", translatedText := "")
  }

  lemma ClearIsIdempotent(s: FormState)
    ensures ClearInput(ClearInput(s)) == ClearInput(s)
  {
  }

  /** `swap_languages`: the languages are exchanged by name and code; the
      texts are exchanged only when there is input. */
  function SwapLanguages(s: FormState): (r: FormState)
    ensures r.sourceLang == s.targetLang && r.targetLang == s.sourceLang
    ensures r.sourceLangCode == s.targetLangCode && r.targetLangCode == s.sourceLangCode
    ensures s.inputText != "" ==> r.inputText == s.translatedText && r.translatedText == s.inputText
    ensures s.inputText == "" ==> r.inputText == "" && r.translatedText == s.translatedText
    ensures r.detectedLang == s.detectedLang
  {
    var t := s.(sourceLang := s.targetLang, targetLang := s.sourceLang,
                sourceLangCode := s.targetLangCode, targetLangCode := s.sourceLangCode);
    if s.inputText != "" then t.(inputText := s.translatedText, translatedText := s.inputText)
    else t
  }

  /** Swapping twice restores the state, except when there was input but no
      translation yet. */
  lemma SwapTwiceRestores(s: FormState)
    ensures SwapLanguages(SwapLanguages(s)) == s <==> !(s.inputText != "" && s.translatedText == "")
  {
  }

  /** The exception: the input moves to the result area and stays there. */
  lemma SwapTwiceMovesUntranslatedInput(s: FormState)
    requires s.inputText != "" && s.translatedText == ""
    ensures SwapLanguages(SwapLanguages(s)) == s.(inputText := "", translatedText := s.inputText)
  {
  }

  /** The languages always come back after two swaps. */
  lemma SwapTwiceRestoresSelection(s: FormState)
    ensures SameSelection(SwapLanguages(SwapLanguages(s)), s)
  {
  }

  /** Swapping keeps a well-formed state well-formed exactly when the source
      is not auto-detection; otherwise the target becomes auto-detection. */
  lemma SwapWellFormedUnlessAutoDetect(s: FormState)
    requires WellFormed(s)
    ensures WellFormed(SwapLanguages(s)) <==> s.sourceLang != AutoDetectName
    ensures s.sourceLang == AutoDetectName ==> SwapLanguages(s).targetLangCode == Auto
  {
  }

  lemma ClearCommutesWithSwap(s: FormState)
    ensures ClearInput(SwapLanguages(s)) == SwapLanguages(ClearInput(s))
  {
  }

  /** The line under the text tab that names the detected language: shown
      only when there is a translation and a detected code. */
  function DetectedNotice(registry: map<Code, Name>, s: FormState): (r: Option<Name>)
    ensures r.Some? <==> s.translatedText != "" && s.detectedLang.Some?
    ensures r.Some? && s.detectedLang.value !in registry ==> r.value == Unknown
    ensures r.Some? && s.detectedLang.value in registry ==> r.value == registry[s.detectedLang.value]
  {
    if s.translatedText != "" && s.detectedLang.Some? then
      Some(GetLanguageName(registry, s.detectedLang.value))
    else None
  }

  /** Clearing keeps the detected code but hides the notice. */
  lemma ClearHidesDetectedNotice(registry: map<Code, Name>, s: FormState)
    ensures DetectedNotice(registry, ClearInput(s)).None?
    ensures ClearInput(s).detectedLang == s.detectedLang
  {
  }

  /** Emptying the input area keeps the previous translation and its notice. */
  lemma EmptiedInputKeepsStaleTranslation(registry: map<Code, Name>, backend: Backend, s: FormState)
    ensures DetectedNotice(registry, EditInput(backend, s, "").state) == DetectedNotice(registry, s)
  {
  }

  /** A user action on the text tab. */
  datatype Event =
    | ChooseSource(name: Name)
    | ChooseTarget(name: Name)
    | Type(text: string)
    | PressTranslate
    | PressClear
    | PressSwap

  /** Menu choices can only be options of their menus. */
  predicate Allowed(e: Event)
  {
    match e
    case ChooseSource(name) => name in SourceOptions()
    case ChooseTarget(name) => name in MenuNames()
    case _ => true
  }

  /** The state after one action; an error is shown and the session goes on. */
  function Step(backend: Backend, s: FormState, e: Event): FormState
    requires Allowed(e)
  {
    match e
    case ChooseSource(name) => SelectSource(s, name)
    case ChooseTarget(name) => SelectTarget(s, name)
    case Type(text) => EditInput(backend, s, text).state
    case PressTranslate => TranslateCallback(backend, s).state
    case PressClear => ClearInput(s)
    case PressSwap => SwapLanguages(s)
  }

  /** The state after a sequence of actions. */
  function Run(backend: Backend, s: FormState, events: seq<Event>): FormState
    requires forall i | 0 <= i < |events| :: Allowed(events[i])
    decreases |events|
  {
    if |events| == 0 then s else Run(backend, Step(backend, s, events[0]), events[1..])
  }

  /** Whether a run of actions never presses swap while the source menu
      is on auto-detection, the one action that breaks well-formedness. */
  ghost predicate SwapsAvoidAutoDetect(backend: Backend, s: FormState, events: seq<Event>)
    requires forall i | 0 <= i < |events| :: Allowed(events[i])
    decreases |events|
  {
    |events| == 0 ||
    (&& !(events[0].PressSwap? && s.sourceLang == AutoDetectName)
     && SwapsAvoidAutoDetect(backend, Step(backend, s, events[0]), events[1..]))
  }

  /** Every action keeps a well-formed state well-formed, except a swap while
      the source is auto-detection. */
  lemma StepKeepsWellFormed(backend: Backend, s: FormState, e: Event)
    requires Allowed(e)
    requires WellFormed(s)
    requires !(e.PressSwap? && s.sourceLang == AutoDetectName)
    ensures WellFormed(Step(backend, s, e))
  {
  }

  /** A run that never swaps away from auto-detection keeps every name an
      option of its menu and every code the one the rerun computes for it. */
  lemma {:induction false} RunKeepsWellFormed(backend: Backend, s: FormState, events: seq<Event>)
    requires forall i | 0 <= i < |events| :: Allowed(events[i])
    requires WellFormed(s)
    requires SwapsAvoidAutoDetect(backend, s, events)
    ensures WellFormed(Run(backend, s, events))
    decreases |events|
  {
    if |events| > 0 {
      StepKeepsWellFormed(backend, s, events[0]);
      RunKeepsWellFormed(backend, Step(backend, s, events[0]), events[1..]);
    }
  }
}
