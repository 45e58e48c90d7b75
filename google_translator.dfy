/** The Google translator: resolving "auto" languages, building the request, and turning
    the decoded reply into the result record. The HTTP exchange and the JSON decoding
    are the `fetch` parameter; url_quote is the `quote` parameter. */
module GoogleTranslator {
  import opened PyValues
  import opened PyStrings
  import opened BasicTranslator
  import opened GoogleResponse
  import opened GoogleUrl

  /** A language argument that asks for detection: None or "auto". */
  predicate IsAuto(lang: Option<string>)
  {
    lang == None || lang == Some("auto")
  }

  /** The languages translate works with: the guessed pair when both arguments ask for
      detection, the arguments themselves otherwise. */
  function ResolveLanguages(sl: Option<string>, tl: Option<string>, text: string): (langs: (Option<string>, Option<string>))
    ensures !(IsAuto(langs.0) && IsAuto(langs.1))
    ensures !IsAuto(sl) || !IsAuto(tl) ==> langs == (sl, tl)
    ensures IsAuto(sl) && IsAuto(tl) ==>
      && langs.0.Some? && langs.1.Some? && langs.0 != langs.1
      && (langs.0 == Some(EnUS) <==> IsAscii(text))
      && (langs.0 == Some(EnUS) || langs.0 == Some(ZhCN))
      && (langs.1 == Some(EnUS) || langs.1 == Some(ZhCN))
  {
    if IsAuto(sl) && IsAuto(tl) then
      var guess := GuessLanguage(text);
      (Some(guess.0), Some(guess.1))
    else (sl, tl)
  }

  /** res['tl']: either obj[1], the synonyms list itself, or the resolved target. */
  datatype TargetField = Lang(code: Option<string>) | SynonymList(groups: seq<SynonymGroup>)

  /** The record translate returns: res['sl'], res['tl'], res['info'] (the reply) and
      res['translation']. */
  datatype GoogleTranslation = GoogleTranslation(
    sl: Option<string>,
    tl: TargetField,
    info: Response,
    translation: string)

  /** What translate returns for the resolved languages and the reply. The source
      language is the reply's detected language when that is truthy, otherwise the
      resolved one; the target language is the synonyms list whenever obj[1] is truthy
      (the quirk of reading obj[1] twice), otherwise the resolved target; the record
      keeps the reply and the rendered text; translate raises exactly when rendering does. */
  function Translated(sl: Option<string>, tl: Option<string>, text: string, resp: Response): (r: Result<GoogleTranslation>)
    ensures r.Ok? <==> Render(text, resp).Ok?
    ensures r.Raised? ==> r.error == Render(text, resp).error
    ensures r.Ok? ==>
      && r.value.info == resp
      && r.value.translation == Render(text, resp).value
      && (TruthyStr(resp.detected) ==> r.value.sl == resp.detected)
      && (!TruthyStr(resp.detected) ==> r.value.sl == sl)
      && (r.value.tl.SynonymList? <==> TruthyList(resp.synonyms))
      && (r.value.tl.SynonymList? ==> Some(r.value.tl.groups) == resp.synonyms)
      && (r.value.tl.Lang? ==> r.value.tl.code == tl)
  {
    match Render(text, resp)
    case Raised(e) => Raised(e)
    case Ok(translation) =>
      var resSl := if TruthyStr(resp.detected) then resp.detected else sl;
      var resTl := if TruthyList(resp.synonyms) then SynonymList(resp.synonyms.value) else Lang(tl);
      Ok(GoogleTranslation(resSl, resTl, resp, translation))
  }

  /** The Google translator object. */
  class GoogleTranslator {
    /** The keyword options given at construction. */
    const options: map<string, string>
    /** self.text: the text of the last translate call; None before the first. */
    var text: Option<string>

    constructor (options: map<string, string>)
      ensures this.options == options && text == None
    {
      this.options := options;
      text := None;
    }

    /** get_result: appends the truthy first field of each entry of obj[0]. */
    method GetResult(result: string, obj: Response) returns (r: string)
      ensures r == result + Primary(obj.segments)
    {
      r := result;
      for k := 0 to |obj.segments|
        invariant r == result + Primary(obj.segments[..k])
      {
        var x := obj.segments[k];
        if TruthyStr(x.text) {
          r := r + x.text.value;
        }
        assert obj.segments[..k + 1][..k] == obj.segments[..k];
      }
      assert obj.segments[..|obj.segments|] == obj.segments;
    }

    /** get_synonym: when obj[1] is truthy, appends the heading and, per group, the
      first character of its part of speech and one line per category. */
    method GetSynonym(result: string, resp: Response) returns (r: Result<string>)
      requires text.Some? || !TruthyList(resp.synonyms)
      ensures r == Synonyms(result, text, resp)
    {
      if !TruthyList(resp.synonyms) {
        return Ok(result);
      }
      var groups := resp.synonyms.value;
      var out := result;
      out := out + Separator;
      out := out + "0_0: Translations of " + text.value + "\n";
      ghost var start := out;
      assert start == result + SynonymHeader(text.value);
      for k := 0 to |groups|
        invariant PosIndexable(groups[..k])
        invariant out == start + SynonymGroupsText(groups[..k])
      {
        var x := groups[k];
        if x.pos == "" {
          return Raised(IndexError("string index out of range"));
        }
        out := out + [x.pos[0]] + ".\n";
        ghost var head := out;
        for m := 0 to |x.categories|
          invariant Fold(AddCategory, out, x.categories[m..]) == Fold(AddCategory, head, x.categories)
        {
          var i := x.categories[m];
          ghost var before := out;
          out := out + i.term + ": " + Join(", ", i.words) + "\n";
          assert out == AddCategory(before, i);
          assert x.categories[m..][1..] == x.categories[m + 1..];
        }
        FoldAppends(AddCategory, CategoryLine, head, x.categories);
        SynonymGroupStep(start, groups, k, out);
      }
      assert groups[..|groups|] == groups;
      return Ok(out);
    }

    /** get_definitions: appends the heading and, per group, its part of speech, one
      "  - " line per definition and an example line for entries with a third field. */
    method GetDefinitions(result: string, resp: Response) returns (r: string)
      requires text.Some?
      requires resp.element12.Present? && resp.element12.groups.Some?
      ensures r == Definitions(result, text.value, resp.element12.groups.value)
    {
      var groups := resp.element12.groups.value;
      r := result;
      r := r + Separator;
      r := r + "0_0: Definitions of " + text.value + "\n";
      ghost var start := r;
      for k := 0 to |groups|
        invariant Fold(AddDefinitionGroup, r, groups[k..]) == Fold(AddDefinitionGroup, start, groups)
      {
        var x := groups[k];
        ghost var before := r;
        r := r + x.pos + ".\n";
        ghost var head := r;
        for m := 0 to |x.definitions|
          invariant Fold(AddDefinition, r, x.definitions[m..]) == Fold(AddDefinition, head, x.definitions)
        {
          var y := x.definitions[m];
          ghost var before := r;
          r := r + "  - " + y.gloss + "\n";
          r := r + if y.example.Some? then "    * " + y.example.value + "\n" else "";
          DefinitionRound(before, y, r);
          assert x.definitions[m..][1..] == x.definitions[m + 1..];
        }
        FoldAppends(AddDefinition, DefinitionLine, head, x.definitions);
        DefinitionGroupRound(before, x, r);
        assert groups[k..][1..] == groups[k + 1..];
      }
      FoldAppends(AddDefinitionGroup, DefinitionGroupText, start, groups);
    }

    /** translate: resolves the languages, remembers the text, fetches the reply for the
      URL built from the resolved languages, and assembles the record. */
    method Translate(sl: Option<string>, tl: Option<string>, text: string,
                     quote: string -> string, fetch: string -> Response)
      returns (res: Result<GoogleTranslation>, ghost url: string)
      modifies this
      ensures this.text == Some(text)
      ensures var langs := ResolveLanguages(sl, tl, text);
              url == GetUrl(options, langs.0, langs.1, text, quote) && res == Translated(langs.0, langs.1, text, fetch(url))
    {
      var source, target := sl, tl;
      if IsAuto(sl) && IsAuto(tl) {
        var guess := GuessLanguage(text);
        source, target := Some(guess.0), Some(guess.1);
      }
      this.text := Some(text);
      var request := GetUrl(options, source, target, text, quote);
      url := request;
      var obj := fetch(request);
      var resSl := if TruthyStr(obj.detected) then obj.detected else source;
      var resTl := if TruthyList(obj.synonyms) then SynonymList(obj.synonyms.value) else Lang(target);
      var result := GetResult("", obj);
      assert result == Primary(obj.segments);
      var withSynonyms := GetSynonym(result, obj);
      if withSynonyms.Raised? {
        assert Render(text, obj) == Raised(withSynonyms.error);
        res := Raised(withSynonyms.error);
        return;
      }
      result := withSynonyms.value;
      if obj.element12.Present? && TruthyList(obj.element12.groups) {
        result := GetDefinitions(result, obj);
      }
      assert Render(text, obj) == Ok(result);
      res := Ok(GoogleTranslation(resSl, resTl, obj, result));
    }
  }

  /** translate('auto', 'auto', 'Hello') asks for English to Chinese, and the URL that
      Translate returns as `url` (the one built from the resolved languages) says so. */
  lemma HelloIsEnglishToChinese(options: map<string, string>, quote: string -> string)
    requires '&' !in quote("Hello")
    ensures ResolveLanguages(Some("auto"), Some("auto"), "Hello") == (Some(EnUS), Some(ZhCN))
    ensures var langs := ResolveLanguages(Some("auto"), Some("auto"), "Hello");
            var params := Split(QueryOf(GetUrl(options, langs.0, langs.1, "Hello", quote)), '&');
            |params| == 14 && params[1] == "sl=en-US" && params[2] == "tl=zh-CN"
  {
    assert forall i :: 0 <= i < 5 ==> "Hello"[i] as int < 128;
    assert '&' !in EnUS && '&' !in ZhCN;
    UrlQuery(options, Some(EnUS), Some(ZhCN), "Hello", quote);
  }

  /** A reply with one segment ("hello"), one synonym group (a greeting: hi, hey) and one
      definition group (a noun, with an example). */
  function SampleReply(): Response
  {
    Response(
      [Segment(Some("hello"))],
      Some([SynonymGroup("greeting", [SynonymCategory("word", ["hi", "hey"])])]),
      Some("en"),
      Present(Some([DefinitionGroup("noun", [Definition("a greeting", Some("hello there"))])])))
  }

  /** The sample reply renders as the primary text, then the synonyms section for its
      one group, then the definitions section for its one group. */
  lemma RenderSample()
    ensures
      var resp := SampleReply();
      Render("hello", resp)
      == Ok("hello"
            + SynonymHeader("hello") + SynonymGroupText(resp.synonyms.value[0])
            + DefinitionHeader("hello") + DefinitionGroupText(resp.element12.groups.value[0]))
  {
    var resp := SampleReply();
    var group := resp.synonyms.value[0];
    var defGroup := resp.element12.groups.value[0];
    assert [resp.segments[0]][..0] == [];
    assert Primary(resp.segments) == "hello";
    assert [group][..0] == [];
    assert SynonymGroupsText([group]) == SynonymGroupText(group);
    assert PosIndexable([group]);
    assert [defGroup][..0] == [];
    assert ConcatMap(DefinitionGroupText, [defGroup]) == DefinitionGroupText(defGroup);
    assert HasDefinitions(resp);
  }

  /** The sample's synonyms group prints the first letter of "greeting" and one
      category line. */
  lemma SampleSynonymText()
    ensures SynonymGroupText(SampleReply().synonyms.value[0]) == "g.\n" + "word: hi, hey\n"
  {
    var category := SampleReply().synonyms.value[0].categories[0];
    assert Join(", ", ["hi", "hey"]) == "hi, hey";
    assert CategoryLine(category) == "word: hi, hey\n";
    assert [category][..0] == [];
    assert ConcatMap(CategoryLine, [category]) == "word: hi, hey\n";
  }

  /** The sample's definitions group prints its part of speech, the gloss line and,
      the entry having an example, the example line. */
  lemma SampleDefinitionText()
    ensures DefinitionGroupText(SampleReply().element12.groups.value[0])
            == "noun" + ".\n" + ("  - " + "a greeting" + "\n" + ("    * " + "hello there" + "\n"))
  {
    var definition := SampleReply().element12.groups.value[0].definitions[0];
    assert [definition][..0] == [];
    assert ConcatMap(DefinitionLine, [definition]) == DefinitionLine(definition);
  }
}
