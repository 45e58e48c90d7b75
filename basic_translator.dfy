/** The service-independent part of a translator: the ASCII test that decides whether a
    text looks English, the default translation direction it implies, and the
    placeholder `translate` every concrete service overrides. */
module BasicTranslator {
  import opened PyValues

  const EnUS := "en-US"
  const ZhCN := "zh-CN"

  /** Every character of the text is below code point 128. */
  predicate IsAscii(text: string)
  {
    forall i :: 0 <= i < |text| ==> text[i] as int < 128
  }

  /** check_english: scans the text and stops at the first character at or above 128. */
  method CheckEnglish(text: string) returns (english: bool)
    ensures english <==> IsAscii(text)
    ensures english <==> forall ch :: ch in text ==> ch as int < 128
  {
    for i := 0 to |text|
      invariant forall j :: 0 <= j < i ==> text[j] as int < 128
    {
      if text[i] as int >= 128 {
        assert text[i] in text;
        return false;
      }
    }
    return true;
  }

  /** guess_language: (source, target) = English to Chinese for ASCII-only text,
      Chinese to English otherwise. */
  function GuessLanguage(text: string): (pair: (string, string))
    ensures pair == (EnUS, ZhCN) || pair == (ZhCN, EnUS)
    ensures pair.0 == EnUS <==> IsAscii(text)
    ensures pair.0 != pair.1
  {
    if IsAscii(text) then (EnUS, ZhCN) else (ZhCN, EnUS)
  }

  /** The guess for a text is English exactly when both halves of it guess English:
      one character at or above 128 anywhere turns the whole guess to Chinese. */
  lemma GuessLanguageConcat(a: string, b: string)
    ensures GuessLanguage(a + b).0 == EnUS <==> GuessLanguage(a).0 == EnUS && GuessLanguage(b).0 == EnUS
  {
    if IsAscii(a) && IsAscii(b) {
      forall i | 0 <= i < |a + b| ensures (a + b)[i] as int < 128 {
        if i >= |a| { assert (a + b)[i] == b[i - |a|]; }
      }
    }
    if IsAscii(a + b) {
      forall i | 0 <= i < |a| ensures a[i] as int < 128 {
        assert (a + b)[i] == a[i];
      }
      forall i | 0 <= i < |b| ensures b[i] as int < 128 {
        assert (a + b)[|a| + i] == b[i];
      }
    }
  }

  /** The record the base class's translate returns. */
  datatype Translation = Translation(
    sl: Option<string>,
    tl: Option<string>,
    text: string,
    translation: Option<string>,
    success: bool,
    info: Option<string>)

  /** The base class's translate: a failed, empty record. As written, its target
      language is the SOURCE language it was given. */
  function Translate(sl: Option<string>, tl: Option<string>, text: string): (res: Translation)
    ensures res.sl == sl && res.tl == sl && res.text == text
    ensures !res.success && res.translation.None? && res.info.None?
  {
    Translation(sl, sl, text, None, false, None)
  }

  /** The target language the caller asked for is lost: requests that differ only in
      their target give the same record, whose target is the source language, so any
      target other than the source is misreported. */
  lemma TranslateDropsTarget(sl: Option<string>, tl1: Option<string>, tl2: Option<string>, text: string)
    ensures Translate(sl, tl1, text) == Translate(sl, tl2, text)
    ensures Translate(sl, tl1, text).tl == sl
    ensures tl1 != sl ==> Translate(sl, tl1, text).tl != tl1
  {
  }

  /** The request translate('en-US', 'zh-CN', 'kiss') is reported as English to English. */
  lemma TranslateKissDropsTarget()
    ensures Translate(Some(EnUS), Some(ZhCN), "kiss").tl == Some(EnUS)
    ensures Translate(Some(EnUS), Some(ZhCN), "kiss") == Translate(Some(EnUS), Some("ja"), "kiss")
  {
    TranslateDropsTarget(Some(EnUS), Some(ZhCN), Some("ja"), "kiss");
  }

  /** The placeholder as evidently intended: it records the target language it was given. */
  function TranslateIntended(sl: Option<string>, tl: Option<string>, text: string): (res: Translation)
    ensures res.sl == sl && res.tl == tl && res.text == text
    ensures !res.success && res.translation.None? && res.info.None?
  {
    Translation(sl, tl, text, None, false, None)
  }
}
