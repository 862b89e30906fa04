# Translator text-tab form state, in Dafny

This project models the one part of the translator app with logic of its own:
the session state of the text tab and the callbacks that move values between
its widgets. The app is a Streamlit page over the googletrans library.

- `Languages` (languages.dfy): the menu dict `MENU_LANGUAGES`, as a map plus its
  insertion order. It holds the reverse lookup `get_language_code`, the name
  lookup `get_language_name` with its "unknown" sentinel `未知`, the two menus'
  option lists, and the code chosen for a source-menu selection.
- `Translation` (translation.dfy): `translate_text`. The googletrans call is a
  function-typed parameter `Backend`. It maps the request it receives to a
  translation plus a reported source code, or to an error.
- `TextForm` (text_form.dfy): the session record `FormState`, its defaults, the
  two menu selections, `translate_callback`, the on-change edit of the input
  area, `clear_input` and `swap_languages`. It also holds the guard of the
  detected-language notice, and a run of user actions over all of them.
- `Wrappers` (wrappers.dfy): `Option` for Python `None`, `Result` for a call
  that may raise.

Three behaviours of the code that the model makes explicit:

- Swapping while the source is auto-detection moves `auto` into the target
  code (`TextForm.SwapWellFormedUnlessAutoDetect`). It is the only action that
  takes a well-formed state out of well-formedness (`TextForm.StepKeepsWellFormed`).
- `clear_input` keeps `detected_lang`; only the notice's guard hides it
  (`TextForm.ClearHidesDetectedNotice`).
- Two swaps do not restore non-empty input that has no translation yet
  (`TextForm.SwapTwiceRestores`, `TextForm.SwapTwiceMovesUntranslatedInput`).

## Model

| member | source | states |
|---|---|---|
| `Languages.FirstKeyNamed` | translator_app.py:30-31 | the generator with default `None`: `None` exactly when no entry has the name; otherwise a key with that name, and no earlier key in iteration order has it |
| `Languages.FirstKeyNamedFindsOwner` | translator_app.py:30-31 | when display names are distinct, looking up a key's own name returns that key |
| `Languages.NamesInOrder` | translator_app.py:75 | `list(MENU_LANGUAGES.values())`: one name per key, in the dict's order |
| `Languages.MenuOrderIsDictOrder` | translator_app.py:25-28 | the menu's order lists each key once; names are distinct; `auto` is not a menu code; the auto-detect label is not a menu name |
| `Languages.MenuNames` | translator_app.py:87 | the target menu offers exactly the menu names |
| `Languages.SourceOptions` | translator_app.py:75 | the source menu offers exactly the auto-detect label and the menu names |
| `Languages.GetLanguageCode` | translator_app.py:30-31 | a returned code is a menu key whose name is the argument; `None` exactly when no menu entry has that name |
| `Languages.GetLanguageCodeRoundTrip` | translator_app.py:25-31 | every menu code is found again from its own name |
| `Languages.GetLanguageName` | translator_app.py:33-34 | never fails: the registry's name when the code is present, `未知` otherwise |
| `Languages.MenuCodeIsRegistered` | translator_app.py:22-34 | if the registry contains the menu codes (assumed, not checked), a menu name yields a registered code whose registry name is shown |
| `Languages.SourceCodeFor` | translator_app.py:75-76 | `auto` exactly for the auto-detect label; a menu name gives a menu key carrying that name; a name outside the options gives `None` |
| `Translation.RequestFor` | translator_app.py:13-17 | the request carries the text and target; it asks for detection exactly when the source is `auto`, and otherwise passes the source on |
| `Translation.TranslateText` | translator_app.py:11-19 | fails exactly when the backend fails; on success, the backend's text, plus the backend's detected code with `auto` or the caller's source code otherwise |
| `Translation.ExplicitSourceIsNotRevalidated` | translator_app.py:16-18 | with an explicit source, the result does not depend on the source language the backend reports |
| `Translation.AutoDetectReportsBackendLanguage` | translator_app.py:13-15 | with `auto`, backends that differ only in the reported language give different detected codes and the same text |
| `TextForm.WellFormedTargetIsConcrete` | translator_app.py:87-88 | in a well-formed state the target code is a menu key found from the target name, never `auto` |
| `TextForm.Initial` | translator_app.py:71-91 | a new session is well-formed, goes from `en` to `zh-cn`, has empty texts and no detected language |
| `TextForm.DefaultIndicesMatchInitial` | translator_app.py:72-87 | index 2 of the source menu and index 0 of the target menu are the initial names |
| `TextForm.SelectSource` | translator_app.py:75-76 | sets the name and its code (`auto` exactly for the auto-detect label); changes no other field; keeps well-formedness |
| `TextForm.SelectTarget` | translator_app.py:87-88 | sets the name and its menu code; changes no other field; keeps well-formedness |
| `TextForm.TranslateCallback` | translator_app.py:45-49 | empty input: no change and no error. It raises exactly when the backend fails, and then the state is unchanged. Otherwise it sets only the result text and detected code, which are the backend's translation and the detected or explicit source |
| `TextForm.EmptyInputNeverCallsBackend` | translator_app.py:45-46 | with empty input the outcome is the same for every backend |
| `TextForm.TranslateIsAllOrNothing` | translator_app.py:47-49 | the state after the callback is either unchanged, or carries both the new text and a detected code |
| `TextForm.EditInput` | translator_app.py:78 | the input area holds the new text and the selection is unchanged. An unchanged text does nothing. Emptying the area keeps the old result and detected code. It raises exactly when a changed, non-empty text fails at the backend, and then only the input has changed. Otherwise a changed, non-empty text shows the backend's translation and the detected or explicit source |
| `TextForm.EditTranslatesNewText` | translator_app.py:78 | a changed, non-empty text that the backend translates shows that translation |
| `TextForm.ClearInput` | translator_app.py:51-53 | both texts become empty; names, codes and the detected code are unchanged; well-formedness is kept |
| `TextForm.ClearIsIdempotent` | translator_app.py:51-53 | clearing twice is clearing once |
| `TextForm.SwapLanguages` | translator_app.py:55-59 | names and codes are exchanged. The texts are exchanged when input is non-empty and left alone otherwise. The detected code is kept |
| `TextForm.SwapTwiceRestores` | translator_app.py:55-59 | two swaps restore the state if and only if it is not the case that input is non-empty and the result empty |
| `TextForm.SwapTwiceMovesUntranslatedInput` | translator_app.py:58-59 | in that exceptional case two swaps leave empty input and the old input as the result |
| `TextForm.SwapTwiceRestoresSelection` | translator_app.py:56-57 | two swaps always restore the names and codes |
| `TextForm.SwapWellFormedUnlessAutoDetect` | translator_app.py:55-57 | from a well-formed state, a swap stays well-formed exactly when the source is not auto-detection; otherwise the target code becomes `auto` |
| `TextForm.ClearCommutesWithSwap` | translator_app.py:51-59 | clearing after a swap equals swapping after a clear |
| `TextForm.DetectedNotice` | translator_app.py:100-101 | the notice appears exactly when there is a result text and a detected code; it names the code via the registry or shows `未知` |
| `TextForm.ClearHidesDetectedNotice` | translator_app.py:100-101 | after clearing, the notice is hidden although the detected code is kept |
| `TextForm.EmptiedInputKeepsStaleTranslation` | translator_app.py:45-48 | emptying the input area leaves the notice as it was, because the callback skips empty input |
| `TextForm.StepKeepsWellFormed` | translator_app.py:67-98 | every action of the text tab keeps names in their menus, the source code equal to line 76's choice and the target code equal to line 88's lookup, except a swap while the source is auto-detection |
| `TextForm.RunKeepsWellFormed` | translator_app.py:67-98 | a sequence of actions that never swaps while the source is auto-detection keeps the state well-formed |

## Left out

- Streamlit rendering: tabs, columns, text areas, buttons and the `st.info`, `st.error` and `st.warning` output. This is presentation; only the notice's guard is modelled.
- The googletrans call itself. It is a foreign network service and becomes the `Backend` parameter. The model assumes nothing about its answers, including for empty text.
- The contents of the library's language registry (`SUPPORTED_LANGUAGES`). It is an opaque map parameter. That it contains the menu codes is the assumption `MenuInRegistry`, not a proven fact.
- Website extraction with requests and BeautifulSoup, and the global disabling of certificate checks. These are network I/O and a foreign HTML parser.
- Document upload decoding (UTF-8 decode or docx2txt). This is file I/O and a foreign parser.
- The document and website tabs. Each has its own target menu and a `translate_text` call with `auto`, and neither touches the text tab's state.
- Streamlit's handling of a session value that is not among its widget's options, as after a swap from auto-detection. The model stops at the session assignments the callback makes.
- `SelectSource` and `SelectTarget` require a name from the menu's options, because a select box can only return one of those. The `None` from a failed lookup is still modelled in `GetLanguageCode` and `SourceCodeFor`.
