/** The decoded reply of Google's `translate_a/single` endpoint, and the text the
    translator assembles from it: the primary translation, then a synonyms section,
    then a definitions section, each appended to what came before. */
module GoogleResponse {
  import opened PyValues
  import opened PyStrings

  /** An entry of obj[0]; its first field is one piece of the translation and may be
      None or empty. */
  datatype Segment = Segment(text: Option<string>)

  /** An entry i of a synonym group's x[2]: i[0], the term, is printed before the colon, i[1] is
      the list of words joined with ", ". */
  datatype SynonymCategory = SynonymCategory(term: string, words: seq<string>)

  /** An entry x of obj[1]: x[0] is the part of speech, a string of which only x[0][0],
      its first character, is printed; x[2] holds the categories. */
  datatype SynonymGroup = SynonymGroup(pos: string, categories: seq<SynonymCategory>)

  /** An entry y of a definition group's x[1]: y[0] is the definition; `example` is
      Some(y[2]) when y has at least three fields and None when it has fewer. */
  datatype Definition = Definition(gloss: string, example: Option<string>)

  /** An entry x of obj[12]: x[0] is the part of speech, x[1] the definitions. */
  datatype DefinitionGroup = DefinitionGroup(pos: string, definitions: seq<Definition>)

  /** obj[12]: Missing when the reply has fewer than 13 elements; otherwise its value,
      which may be None. */
  datatype Element12 = Missing | Present(groups: Option<seq<DefinitionGroup>>)

  /** The reply: obj[0] the segments, obj[1] the synonym groups, obj[2] the detected
      source language, obj[12] the definition groups. */
  datatype Response = Response(
    segments: seq<Segment>,
    synonyms: Option<seq<SynonymGroup>>,
    detected: Option<string>,
    element12: Element12)

  const Separator := "\n=========\n"

  // ----- get_result ---------------------------------------------------------

  /** What one segment adds: its first field when that is truthy, nothing otherwise. */
  function Contribution(s: Segment): string
  {
    if TruthyStr(s.text) then s.text.value else ""
  }

  /** The primary translation: every segment's contribution, in order. */
  function Primary(segments: seq<Segment>): string
  {
    ConcatMap(Contribution, segments)
  }

  /** The truthy first fields, in order (the reference reading of get_result). */
  function TruthyTexts(segments: seq<Segment>): (texts: seq<string>)
    ensures forall i :: 0 <= i < |texts| ==> texts[i] != ""
    ensures |texts| <= |segments|
  {
    if |segments| == 0 then []
    else if TruthyStr(segments[0].text) then [segments[0].text.value] + TruthyTexts(segments[1..])
    else TruthyTexts(segments[1..])
  }

  /** get_result builds the in-order concatenation of the truthy first fields and
      nothing else. */
  lemma {:induction false} PrimaryIsTruthyTexts(segments: seq<Segment>)
    ensures Primary(segments) == Concat(TruthyTexts(segments))
  {
    if |segments| > 0 {
      PrimaryIsTruthyTexts(segments[1..]);
      ConcatMapCons(Contribution, segments[0], segments[1..]);
      assert [segments[0]] + segments[1..] == segments;
      if TruthyStr(segments[0].text) {
        assert ([segments[0].text.value] + TruthyTexts(segments[1..]))[1..] == TruthyTexts(segments[1..]);
      }
    }
  }

  /** A segment whose first field is None or "" contributes nothing, wherever it stands. */
  lemma PrimarySkipsFalsy(before: seq<Segment>, s: Segment, after: seq<Segment>)
    requires !TruthyStr(s.text)
    ensures Primary(before + [s] + after) == Primary(before + after)
  {
    ConcatMapAppend(Contribution, before + [s], after);
    ConcatMapAppend(Contribution, before, [s]);
    ConcatMapAppend(Contribution, before, after);
    assert [s][..0] == [];
  }

  // ----- get_synonym --------------------------------------------------------

  /** The heading of the synonyms section, naming the text being translated. */
  function SynonymHeader(text: string): string
  {
    Separator + "0_0: Translations of " + text + "\n"
  }

  /** One category line: its term, a colon, and its words joined with ", ". */
  function CategoryLine(c: SynonymCategory): string
  {
    c.term + ": " + Join(", ", c.words) + "\n"
  }

  /** The step function of the category loop: one round appends the category's line. */
  function AddCategory(acc: string, c: SynonymCategory): string
  {
    acc + CategoryLine(c)
  }

  /** x[0][0] exists for every group: no part of speech is the empty string. */
  predicate PosIndexable(groups: seq<SynonymGroup>)
  {
    forall j :: 0 <= j < |groups| ==> groups[j].pos != ""
  }

  /** One group: the first character of its part of speech, then its category lines. */
  function SynonymGroupText(g: SynonymGroup): string
    requires g.pos != ""
  {
    [g.pos[0]] + ".\n" + ConcatMap(CategoryLine, g.categories)
  }

  /** All groups, in order. */
  function SynonymGroupsText(groups: seq<SynonymGroup>): string
    requires PosIndexable(groups)
  {
    if |groups| == 0 then ""
    else SynonymGroupsText(groups[..|groups| - 1]) + SynonymGroupText(groups[|groups| - 1])
  }

  /** The groups' texts follow each other in the order of the groups. */
  lemma {:induction false} SynonymGroupsAppend(xs: seq<SynonymGroup>, ys: seq<SynonymGroup>)
    requires PosIndexable(xs) && PosIndexable(ys)
    ensures PosIndexable(xs + ys)
    ensures SynonymGroupsText(xs + ys) == SynonymGroupsText(xs) + SynonymGroupsText(ys)
  {
    assert forall j :: 0 <= j < |xs + ys| ==> (xs + ys)[j] == if j < |xs| then xs[j] else ys[j - |xs|];
    if |ys| > 0 {
      var init := ys[..|ys| - 1];
      assert PosIndexable(init);
      assert (xs + ys)[..|xs + ys| - 1] == xs + init;
      SynonymGroupsAppend(xs, init);
    } else {
      assert xs + ys == xs;
    }
  }

  /** One round of the group loop: the group's text appended after the earlier ones. */
  lemma SynonymGroupStep(start: string, groups: seq<SynonymGroup>, k: nat, out: string)
    requires k < |groups| && PosIndexable(groups[..k]) && groups[k].pos != ""
    requires out == start + SynonymGroupsText(groups[..k]) + [groups[k].pos[0]] + ".\n"
                    + ConcatMap(CategoryLine, groups[k].categories)
    ensures PosIndexable(groups[..k + 1])
    ensures out == start + SynonymGroupsText(groups[..k + 1])
  {
    assert groups[..k + 1][..k] == groups[..k];
  }

  /** get_synonym: `result` unchanged when obj[1] is falsy; otherwise the heading and
      every group appended, or IndexError when some group's part of speech is empty.
      `text` is the translator's `self.text`, which must exist when obj[1] is truthy. */
  function Synonyms(result: string, text: Option<string>, resp: Response): Result<string>
    requires text.Some? || !TruthyList(resp.synonyms)
  {
    if !TruthyList(resp.synonyms) then Ok(result)
    else if !PosIndexable(resp.synonyms.value) then Raised(IndexError("string index out of range"))
    else Ok(result + SynonymHeader(text.value) + SynonymGroupsText(resp.synonyms.value))
  }

  /** get_synonym only appends: a falsy obj[1] leaves the text as it was; a truthy one
      keeps it as a strict prefix followed by the heading; and it raises exactly when a
      part of speech is empty. */
  lemma SynonymsAppendOnly(result: string, text: Option<string>, resp: Response)
    requires text.Some? || !TruthyList(resp.synonyms)
    ensures !TruthyList(resp.synonyms) ==> Synonyms(result, text, resp) == Ok(result)
    ensures Synonyms(result, text, resp).Raised?
      <==> TruthyList(resp.synonyms) && exists j :: 0 <= j < |resp.synonyms.value| && resp.synonyms.value[j].pos == ""
    ensures TruthyList(resp.synonyms) && Synonyms(result, text, resp).Ok? ==>
      var out := Synonyms(result, text, resp).value;
      result + SynonymHeader(text.value) <= out && |result| < |out|
  {
  }

  // ----- get_definitions ----------------------------------------------------

  /** The heading of the definitions section, naming the text being translated. */
  function DefinitionHeader(text: string): string
  {
    Separator + "0_0: Definitions of " + text + "\n"
  }

  /** One definition: a "  - " line, and a "    * " example line when there is one. */
  function DefinitionLine(d: Definition): string
  {
    "  - " + d.gloss + "\n" + (if d.example.Some? then "    * " + d.example.value + "\n" else "")
  }

  /** The step function of the definition loop: one round appends the definition's lines. */
  function AddDefinition(acc: string, d: Definition): string
  {
    acc + DefinitionLine(d)
  }

  /** The two appends of one definition round amount to one step of the loop. */
  lemma DefinitionRound(before: string, d: Definition, after: string)
    requires after == before + "  - " + d.gloss + "\n"
                     + (if d.example.Some? then "    * " + d.example.value + "\n" else "")
    ensures after == AddDefinition(before, d)
  {
  }

  /** One group: its part of speech, then its definitions. */
  function DefinitionGroupText(g: DefinitionGroup): string
  {
    g.pos + ".\n" + ConcatMap(DefinitionLine, g.definitions)
  }

  /** The step function of the definition-group loop: one round appends the group's text. */
  function AddDefinitionGroup(acc: string, g: DefinitionGroup): string
  {
    acc + DefinitionGroupText(g)
  }

  /** The part-of-speech line followed by the inner loop's lines amount to one step of
      the group loop. */
  lemma DefinitionGroupRound(before: string, g: DefinitionGroup, after: string)
    requires after == before + g.pos + ".\n" + ConcatMap(DefinitionLine, g.definitions)
    ensures after == AddDefinitionGroup(before, g)
  {
  }

  /** get_definitions: the heading and every group appended to `result`. */
  function Definitions(result: string, text: string, groups: seq<DefinitionGroup>): string
  {
    result + DefinitionHeader(text) + ConcatMap(DefinitionGroupText, groups)
  }

  /** A definition is one line, and a second, example line exactly when the entry had
      a third field (for definitions and examples that hold no newline). */
  lemma DefinitionLineLines(d: Definition)
    requires '\n' !in d.gloss
    requires d.example.Some? ==> '\n' !in d.example.value
    ensures d.example.None? ==> Split(DefinitionLine(d), '\n') == ["  - " + d.gloss, ""]
    ensures d.example.Some? ==>
      Split(DefinitionLine(d), '\n') == ["  - " + d.gloss, "    * " + d.example.value, ""]
  {
    var first := "  - " + d.gloss;
    assert '\n' !in first by {
      assert forall i :: 0 <= i < |first| ==> first[i] == if i < 4 then "  - "[i] else d.gloss[i - 4];
    }
    if d.example.Some? {
      var second := "    * " + d.example.value;
      assert '\n' !in second by {
        assert forall i :: 0 <= i < |second| ==> second[i] == if i < 6 then "    * "[i] else d.example.value[i - 6];
      }
      assert DefinitionLine(d) == first + ['\n'] + (second + ['\n'] + "");
      SplitAfterPiece(first, '\n', second + ['\n'] + "");
      SplitAfterPiece(second, '\n', "");
    } else {
      assert DefinitionLine(d) == first + ['\n'] + "";
      SplitAfterPiece(first, '\n', "");
    }
  }

  // ----- the three stages together -------------------------------------------

  /** len(obj) >= 13 and obj[12] is truthy. */
  predicate HasDefinitions(resp: Response)
  {
    resp.element12.Present? && TruthyList(resp.element12.groups)
  }

  /** The translation text: get_result on "", then get_synonym, then get_definitions
      when the reply carries definitions. It raises, with IndexError, exactly when obj[1]
      is truthy and one of its groups has an empty part of speech. */
  function Render(text: string, resp: Response): (r: Result<string>)
    ensures r.Raised? <==>
      TruthyList(resp.synonyms) && exists j :: 0 <= j < |resp.synonyms.value| && resp.synonyms.value[j].pos == ""
    ensures r.Raised? ==> r.error.IndexError?
  {
    match Synonyms(Primary(resp.segments), Some(text), resp)
    case Raised(e) => Raised(e)
    case Ok(withSynonyms) =>
      if HasDefinitions(resp) then Ok(Definitions(withSynonyms, text, resp.element12.groups.value))
      else Ok(withSynonyms)
  }

  /** The stages append in order: the primary translation comes first; the synonyms
      heading follows it when obj[1] is truthy; when obj[12] exists and is truthy the
      definitions section follows get_synonym's text and closes it, and otherwise the
      text is get_synonym's; it fails only as get_synonym does. */
  lemma RenderStages(text: string, resp: Response)
    ensures Render(text, resp).Raised? <==> Synonyms(Primary(resp.segments), Some(text), resp).Raised?
    ensures Render(text, resp).Ok? ==>
      var out := Render(text, resp).value;
      && Primary(resp.segments) <= out
      && (TruthyList(resp.synonyms) ==> Primary(resp.segments) + SynonymHeader(text) <= out)
      && (!TruthyList(resp.synonyms) && !HasDefinitions(resp) ==> out == Primary(resp.segments))
      && (HasDefinitions(resp) ==>
            var defs := DefinitionHeader(text) + ConcatMap(DefinitionGroupText, resp.element12.groups.value);
            && out == Synonyms(Primary(resp.segments), Some(text), resp).value + defs
            && |defs| <= |out| && out[|out| - |defs|..] == defs)
      && (!HasDefinitions(resp) ==> out == Synonyms(Primary(resp.segments), Some(text), resp).value)
  {
    var p := Primary(resp.segments);
    SynonymsAppendOnly(p, Some(text), resp);
    if Render(text, resp).Ok? && HasDefinitions(resp) {
      var s := Synonyms(p, Some(text), resp).value;
      var defs := DefinitionHeader(text) + ConcatMap(DefinitionGroupText, resp.element12.groups.value);
      assert Render(text, resp).value == s + defs;
    }
  }
}
