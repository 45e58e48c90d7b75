# translator.py core, modelled in Dafny

This project models the translation core of `lib/translator.py`, a small command-line
translation client. It covers:

- the service-independent helpers of `BasicTranslator`: the ASCII test `check_english`,
  the default direction `guess_language`, and the placeholder `translate`;
- the Google translator: `get_url`, `translate` and the three stages that assemble the
  translation text from the decoded reply (`get_result`, `get_synonym`,
  `get_definitions`).

Modules:

- `PyValues` (`py_values.dfy`): `Option`, the `Result` of an operation that may raise,
  and Python truthiness made explicit. `None`, `""` and `[]` are all false.
- `PyStrings` (`py_strings.dfy`): `str.join`, a one-character `str.split`, and the text
  after a separator. It also holds `ConcatMap` and `Fold`, which describe what an
  accumulating `result += ...` loop builds.
- `BasicTranslator` (`basic_translator.dfy`): `CheckEnglish` is a method with the
  source's early-exit loop. `GuessLanguage` and the placeholder `Translate` are
  functions.
- `GoogleUrl` (`google_url.dfy`): the request URL. Its lemmas read the host and the
  query parameters back out of it.
- `GoogleResponse` (`google_response.dfy`): the decoded reply as a typed datatype, and
  specification functions for each of the three stages.
- `GoogleTranslator` (`google_translator.dfy`): the translator object as a `class`. Its
  field `text` is `self.text`, and `get_result`, `get_synonym`, `get_definitions` and
  `translate` are methods with the source's loops. Each method is proved equal to the
  matching specification function.

Behaviour of the source that the model keeps:

- The base class's `translate` stores the source language as the target language.
  See Findings.
- `get_url` reads the `host` option and then overwrites it with `translate.google.cn`.
  The languages are inserted as `str()` prints them, so a `None` source language gives
  `sl=None`. Only the query text goes through `url_quote`.
- Detection is requested only when both languages are `None` or `"auto"`.
- `res['sl']` is `obj[2]` when that is truthy. `res['tl']` is `obj[1]`, the synonyms
  list itself, when that is truthy, and the resolved target otherwise. The result's
  `tl` is therefore the sum type `TargetField`.
- `get_synonym` prints `x[0][0]`, the first character of a group's part of speech. An
  empty part of speech raises `IndexError`, modelled as `Raised`.
- Definitions are added only when the reply has at least 13 elements and `obj[12]` is
  truthy. A definition entry prints an example line exactly when it has a third field.

Where the code departs from what a reader of its names and comments would expect, the
model follows the code:

- Detection also applies to `None` languages.
- The target language in the result is the synonyms list.
- A synonym group prints only its first letter.
- A malformed synonym group raises instead of being skipped.

The URL is written as `"https://" + host + path + "?"` followed by the parameter list
joined with `&`. The parameters and their order are those of the source's URL template.

## Model

| member | source | states |
|---|---|---|
| BasicTranslator.Translate | lib/translator.py:90-98 | the placeholder returns a failed record with no translation and no info, keeps sl and text, and its tl is the given sl |
| BasicTranslator.TranslateDropsTarget | lib/translator.py:93 | for every source, text and pair of targets, the two requests get the same record, whose tl is the source language, so every target other than the source is misreported |
| BasicTranslator.TranslateKissDropsTarget | lib/translator.py:93 | translate('en-US', 'zh-CN', 'kiss') reports tl 'en-US', the same record as the request for 'ja' |
| BasicTranslator.TranslateIntended | lib/translator.py:90-98 | corrected placeholder: the record's tl is the target language it was given |
| BasicTranslator.CheckEnglish | lib/translator.py:101-105 | the scan returns true exactly when every character's code point is below 128 |
| BasicTranslator.GuessLanguage | lib/translator.py:108-111 | the direction is en-US to zh-CN exactly for ASCII-only text, zh-CN to en-US otherwise, never the same language twice |
| BasicTranslator.GuessLanguageConcat | lib/translator.py:101-111 | a concatenation guesses English exactly when both parts do |
| GoogleUrl.GetUrl | lib/translator.py:124-131 | the host read back from the URL is translate.google.cn for every option set and argument, and the query string read back is the parameter list joined with '&' |
| GoogleUrl.UrlIgnoresHostOption | lib/translator.py:125-126 | two option sets give the same URL: the host option has no effect |
| GoogleUrl.UrlQuery | lib/translator.py:127-130 | split on '&', the query string is exactly client=gtx, sl, tl (verbatim), the ten dt parameters and q=quote(text), in order |
| GoogleTranslator.ResolveLanguages | lib/translator.py:134-135 | explicit languages pass through; when both are None or auto, the pair is the guessed one, en-US/zh-CN, distinct, and never both auto |
| GoogleTranslator.Translated | lib/translator.py:140-148 | res sl is obj[2] when truthy, else the resolved source; res tl is the synonyms list exactly when obj[1] is truthy, else the resolved target; info is the reply; translate raises exactly when rendering does |
| GoogleTranslator.GoogleTranslator.GetResult | lib/translator.py:151-155 | the loop leaves the input followed by the contributions of the segments in order |
| GoogleResponse.TruthyTexts | lib/translator.py:153 | the kept first fields are all non-empty and no more than the segments |
| GoogleResponse.PrimaryIsTruthyTexts | lib/translator.py:151-155 | get_result's text is the in-order concatenation of exactly the truthy first fields |
| GoogleResponse.PrimarySkipsFalsy | lib/translator.py:153-154 | a segment whose first field is None or empty changes nothing, wherever it stands |
| GoogleTranslator.GoogleTranslator.GetSynonym | lib/translator.py:157-165 | the loops give the input unchanged for a falsy obj[1], IndexError for an empty part of speech, and otherwise the heading followed by every group in order |
| GoogleResponse.SynonymsAppendOnly | lib/translator.py:157-165 | get_synonym only appends: a falsy obj[1] leaves the text alone, it raises exactly when some part of speech is empty, and otherwise input plus heading is a strict prefix |
| GoogleResponse.SynonymGroupsAppend | lib/translator.py:161-164 | the text of two lists of groups is the text of the first followed by that of the second |
| PyStrings.JoinSnoc | lib/translator.py:164 | ", ".join puts the separator only between neighbouring words |
| GoogleTranslator.SampleSynonymText | lib/translator.py:161-164 | the group ("greeting", [("word", ["hi", "hey"])]) prints "g.\n" then "word: hi, hey\n" |
| GoogleTranslator.GoogleTranslator.GetDefinitions | lib/translator.py:167-175 | the loops give the input, the definitions heading, and each group's part of speech followed by its definition lines, in order |
| GoogleResponse.DefinitionLineLines | lib/translator.py:173-174 | a definition is one "  - " line, plus a "    * " example line exactly when the entry has a third field |
| GoogleTranslator.SampleDefinitionText | lib/translator.py:170-174 | the group ("noun", [("a greeting", example "hello there")]) prints "noun.\n", the gloss line and the example line |
| GoogleResponse.Render | lib/translator.py:144-147 | the stages raise, with IndexError, exactly when obj[1] is truthy and one of its groups has an empty part of speech |
| GoogleResponse.RenderStages | lib/translator.py:144-147 | the primary text comes first; the synonyms heading follows it when obj[1] is truthy; when obj[12] exists and is truthy the text is get_synonym's followed by the definitions section, and otherwise it is get_synonym's; only get_synonym can raise |
| GoogleTranslator.RenderSample | lib/translator.py:144-147 | a reply with one segment, one synonym group and one definition group renders as "hello", then the synonyms section, then the definitions section |
| GoogleTranslator.GoogleTranslator.Translate | lib/translator.py:133-149 | translate records the text, returns as `url` the URL it fetches, built from the resolved languages, and returns the record that this reply determines |
| GoogleTranslator.HelloIsEnglishToChinese | lib/translator.py:133-137 | translate with auto, auto and "Hello" resolves to en-US to zh-CN, and the URL built from the resolved pair, which Translate fetches and returns as `url`, carries sl=en-US and tl=zh-CN |

## Left out

- The HTTP layer (`request`, `http_get`, `http_post`, the session, timeout, proxy and the user-agent string) is left out. `GoogleTranslator.Translate` takes the exchange as a parameter `fetch` that maps a URL to the decoded reply.
- `url_quote` and `url_unquote` are left out, because percent-encoding is a library call. The URL is built with an abstract `quote` parameter.
- `r.json()` is left out. The reply is a typed `Response` holding only the positions the core reads: 0, 1, 2 and 12. A reply of another shape raises `TypeError` or `IndexError` in Python, and the model does not represent such replies. That includes a reply with fewer than three elements, and entries missing `x[2]` or `y[0]`.
- Values that `'{}'.format` prints are taken as strings: part of speech, term, gloss and example. Non-string JSON values are not modelled.
- GoogleTranslator.GoogleTranslator.GetSynonym: reading `self.text` before any `translate` call raises `AttributeError` in Python. The model requires the text to be set whenever `obj[1]` is truthy.
- GoogleTranslator.GoogleTranslator.GetDefinitions: for the same reason, it requires the text to be set.
- The Python 2 import branch, the module's test code and the other services (Bing, Baidu, Youdao, Ciba) are not part of this model.

## Findings

| source | as written | input that shows it | evidently intended | confidence | as-written member | corrected member |
|---|---|---|---|---|---|---|
| lib/translator.py:93 | `res['tl'] = sl`: the placeholder's record gives the source language as the target | `translate('en-US', 'zh-CN', 'kiss')` gives tl `'en-US'` | `res['tl'] = tl` | high, not executed | BasicTranslator.TranslateDropsTarget | BasicTranslator.TranslateIntended |
