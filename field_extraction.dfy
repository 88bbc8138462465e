/** The field extractor: it asks a remote language model for the eight
    referral fields and falls back to the regular-expression record when the
    model is not configured, the call fails or its reply is not a JSON
    object. */
module FieldExtraction {
  import opened RubyText
  import opened JsonValues
  import opened Patterns
  import opened PatternFacts

  // ------------------------------------------------------ the field table

  /** The keys of `FIELDS_TO_EXTRACT`, in declaration order. */
  const FieldNames: seq<string> := [
    "patient_name", "date_of_birth", "phone_number", "email_address",
    "insurance", "referring_provider", "referral_reason", "notes_comments"
  ]

  /** The descriptions of `FIELDS_TO_EXTRACT`, in the same order. The longer
      ones are written as concatenations of short pieces, which does not
      change their value: the verifier reasons about short literals much more
      cheaply than about long ones. */
  const FieldDescriptions: seq<string> := [
    "Full name of the patient",
    "Patient's date of birth " + "(format: MM/DD/YYYY " + "or any date " + "format found)",
    "Patient's phone number",
    "Patient's email address",
    "Insurance provider " + "or insurance information",
    "Name of the referring " + "doctor or provider",
    "Reason for the referral " + "or chief complaint",
    "Any additional notes, " + "comments, or special " + "instructions"
  ]

  /** The fallback expression for each field, in the same order. */
  const FieldPatterns: seq<Pattern> := [
    PatientNamePattern, DateOfBirthPattern, PhonePattern, EmailPattern,
    InsurancePattern, ProviderPattern, ReasonPattern, NotesPattern
  ]

  const BasicNote: string :=
    "Basic pattern matching used (no AI). Results may be incomplete. Configure OPENAI_API_KEY for better extraction."

  /** The keys of the fallback record besides the eight fields. */
  const ExtraKeys: seq<string> := ["confidence", "extraction_notes", "ai_used"]

  /** Every key the fallback record has, in the order written. */
  function RecordKeys(): (ks: seq<string>)
    ensures |ks| == |FieldNames| + |ExtraKeys|
  {
    FieldNames + ExtraKeys
  }

  lemma {:induction false} RecordKeysDistinct()
    ensures forall i, j :: 0 <= i < j < |RecordKeys()| ==> RecordKeys()[i] != RecordKeys()[j]
  {
  }

  // ------------------------------------------------------ hash literals

  /** A hash literal: the pairs entered left to right, a later pair
      replacing an earlier one with the same key. */
  function HashOf(pairs: seq<(string, Json)>): (r: Record)
    ensures r.Keys == set i | 0 <= i < |pairs| :: pairs[i].0
    decreases |pairs|
  {
    if pairs == [] then map[]
    else
      var front := HashOf(pairs[..|pairs| - 1]);
      assert forall i :: 0 <= i < |pairs| - 1 ==> pairs[..|pairs| - 1][i] == pairs[i];
      front[pairs[|pairs| - 1].0 := pairs[|pairs| - 1].1]
  }

  predicate DistinctKeys(pairs: seq<(string, Json)>) {
    forall i, j :: 0 <= i < j < |pairs| ==> pairs[i].0 != pairs[j].0
  }

  /** With distinct keys, each pair's value is found under its key. */
  lemma {:induction false} HashOfLookup(pairs: seq<(string, Json)>, i: nat)
    requires DistinctKeys(pairs) && i < |pairs|
    ensures HashOf(pairs)[pairs[i].0] == pairs[i].1
    decreases |pairs|
  {
    if i < |pairs| - 1 {
      var front := pairs[..|pairs| - 1];
      assert front[i] == pairs[i];
      HashOfLookup(front, i);
    }
  }

  // ------------------------------------------------- the pattern record

  /** The eight fallback values, one per field in declaration order. */
  function FieldValues(text: string): (vs: seq<string>)
    ensures |vs| == |FieldNames|
    ensures forall i :: 0 <= i < |vs| ==> vs[i] == ExtractPattern(text, FieldPatterns[i])
  {
    seq(|FieldPatterns|, i requires 0 <= i < |FieldPatterns| => ExtractPattern(text, FieldPatterns[i]))
  }

  /** The pairs of the fallback hash literal, in the order written. */
  function FallbackPairs(vs: seq<string>): (ps: seq<(string, Json)>)
    requires |vs| == |FieldNames|
    ensures |ps| == |RecordKeys()|
    ensures forall i :: 0 <= i < |ps| ==> ps[i].0 == RecordKeys()[i]
    ensures forall i :: 0 <= i < |FieldNames| ==> ps[i].1 == JStr(vs[i])
  {
    seq(|FieldNames|, i requires 0 <= i < |FieldNames| => (FieldNames[i], JStr(vs[i])))
    + [("confidence", JStr("low")), ("extraction_notes", JStr(BasicNote)), ("ai_used", JBool(false))]
  }

  /** Each pair of the fallback literal is found under its key. */
  lemma {:induction false} FallbackLookup(vs: seq<string>)
    requires |vs| == |FieldNames|
    ensures var r := HashOf(FallbackPairs(vs));
            && (forall i :: 0 <= i < |FieldNames| ==> FieldNames[i] in r && r[FieldNames[i]] == JStr(vs[i]))
            && "confidence" in r && r["confidence"] == JStr("low")
            && "extraction_notes" in r && r["extraction_notes"] == JStr(BasicNote)
            && "ai_used" in r && r["ai_used"] == JBool(false)
  {
    var pairs := FallbackPairs(vs);
    RecordKeysDistinct();
    assert DistinctKeys(pairs);
    forall i | 0 <= i < |FieldNames|
      ensures FieldNames[i] in HashOf(pairs) && HashOf(pairs)[FieldNames[i]] == JStr(vs[i])
    {
      assert pairs[i].0 == FieldNames[i];
      HashOfLookup(pairs, i);
    }
    HashOfLookup(pairs, 8);
    HashOfLookup(pairs, 9);
    HashOfLookup(pairs, 10);
  }

  /** `extract_with_basic_patterns`: every field read by its expression,
      with low confidence, a fixed note and `ai_used: false`, and no other
      key. */
  function PatternRecord(text: string): (r: Record)
    ensures r.Keys == set i | 0 <= i < |RecordKeys()| :: RecordKeys()[i]
    ensures forall i :: 0 <= i < |FieldNames| ==>
              FieldNames[i] in r && r[FieldNames[i]] == JStr(ExtractPattern(text, FieldPatterns[i]))
    ensures "confidence" in r && r["confidence"] == JStr("low")
    ensures "extraction_notes" in r && r["extraction_notes"] == JStr(BasicNote)
    ensures "ai_used" in r && r["ai_used"] == JBool(false)
  {
    var vs := FieldValues(text);
    FallbackLookup(vs);
    HashOf(FallbackPairs(vs))
  }

  /** The fallback date of birth and email address have the shapes their
      expressions describe whenever they are not the sentinel. */
  lemma {:induction false} PatternRecordShapes(text: string)
    ensures var d := ExtractPattern(text, DateOfBirthPattern);
            && "date_of_birth" in PatternRecord(text)
            && PatternRecord(text)["date_of_birth"] == JStr(d)
            && (d == NotFound || IsDateShape(d))
    ensures var e := ExtractPattern(text, EmailPattern);
            && "email_address" in PatternRecord(text)
            && PatternRecord(text)["email_address"] == JStr(e)
            && (e == NotFound || IsEmailShape(e))
  {
    assert FieldNames[1] == "date_of_birth" && FieldPatterns[1] == DateOfBirthPattern;
    assert FieldNames[3] == "email_address" && FieldPatterns[3] == EmailPattern;
    DateOfBirthExtract(text);
    EmailExtract(text);
  }

  // -------------------------------------------------------- the AI path

  /** What the remote call gives back: a failure of the request or of
      `JSON.parse` on the reply's content, or the parsed document. */
  datatype ChatReply = ChatFailed | Parsed(value: Json)

  /** `format_result`: the parsed hash with `ai_used: true` merged over it.
      A parsed value that is not an object has no `symbolize_keys` and
      raises, which is reported as None. */
  function FormatResult(parsed: Json): (r: Option<Record>)
    ensures r.Some? <==> parsed.JObj?
    ensures r.Some? ==> && r.value.Keys == parsed.fields.Keys + {"ai_used"}
                        && r.value["ai_used"] == JBool(true)
                        && forall k :: k in parsed.fields && k != "ai_used" ==> r.value[k] == parsed.fields[k]
  {
    match parsed
    case JObj(m) => Some(m["ai_used" := JBool(true)])
    case _ => None
  }

  /** `extract_with_ai`: the prompt goes to `chat`, and every failure on the
      way, including a reply that is not an object, falls back to the
      pattern record. */
  function ExtractWithAi(text: string, chat: string -> ChatReply): (r: Record)
    ensures "ai_used" in r
    ensures r["ai_used"] == JBool(true) <==>
              (chat(BuildPrompt(text)).Parsed? && chat(BuildPrompt(text)).value.JObj?)
    ensures !(chat(BuildPrompt(text)).Parsed? && chat(BuildPrompt(text)).value.JObj?) ==>
              r == PatternRecord(text)
    ensures chat(BuildPrompt(text)).Parsed? && chat(BuildPrompt(text)).value.JObj? ==>
              r == FormatResult(chat(BuildPrompt(text)).value).value
  {
    match chat(BuildPrompt(text))
    case ChatFailed => PatternRecord(text)
    case Parsed(v) =>
      match FormatResult(v)
      case None => PatternRecord(text)
      case Some(m) => m
  }

  /** `openai_configured?`: the key is set and not blank, that is, it holds
      at least one character that is not a space. */
  predicate KeyConfigured(apiKey: Option<string>)
    ensures KeyConfigured(apiKey) <==>
              apiKey.Some? && exists k :: 0 <= k < |apiKey.value| && !IsUnicodeSpace(apiKey.value[k])
  {
    apiKey.Some? && !BlankString(apiKey.value)
  }

  /** The extractor object: the text it reads and whether it uses the
      remote model, both fixed when it is made. */
  class AiFieldExtractor {
    const extractedText: string
    const useAi: bool

    constructor(extractedText: string, useAi: bool, apiKey: Option<string>)
      ensures this.extractedText == extractedText
      ensures this.useAi == (useAi && KeyConfigured(apiKey))
    {
      this.extractedText := extractedText;
      this.useAi := useAi && KeyConfigured(apiKey);
    }

    /** `extract_fields`: the model's fields when it is used and answers
        with an object, the pattern record in every other case. */
    method ExtractFields(chat: string -> ChatReply) returns (r: Record)
      ensures !useAi ==> r == PatternRecord(extractedText)
      ensures useAi ==> r == ExtractWithAi(extractedText, chat)
      ensures r["ai_used"] == JBool(true) <==>
                useAi && chat(BuildPrompt(extractedText)).Parsed?
                && chat(BuildPrompt(extractedText)).value.JObj?
    {
      if useAi {
        r := ExtractWithAi(extractedText, chat);
      } else {
        r := PatternRecord(extractedText);
      }
    }
  }

  // --------------------------------------------------------- the prompt

  /** The fixed text of the user prompt, around the field lines and the
      document. */
  datatype PromptTemplate = PromptTemplate(head: string, instructions: string, closing: string)

  const ExtractionTemplate: PromptTemplate := PromptTemplate(
    "Extract the following information from this medical referral document:\n\n",
    "\n\nCRITICAL INSTRUCTIONS FOR THIS DOCUMENT:\n"
    + "1. For provider names: The document may have OCR errors. Look for the name in multiple places (headers, signatures, \"From Provider\" sections). Use the clearest version.\n"
    + "2. For Notes/Comments: ONLY extract from actual \"Notes\" or \"Comments\" sections. Lines like \"Secondary Insurance: None recorded\" or \"Authorization: SELF PAY\" are NOT notes.\n"
    + "3. Double-check spelling by finding the name in multiple places in the document.\n"
    + "\nDocument text (may contain OCR errors):\n",
    "\n\nProvide the extracted information in JSON format.\n")

  /** The fences around the document text. */
  const OpenFence: string := "\"\"\"\n"
  const CloseFence: string := "\n\"\"\""

  /** The prompt line for one field: its humanized key and description. */
  function FieldLine(key: string, desc: string): string {
    "- " + Humanize(key) + ": " + desc
  }

  function FieldLines(keys: seq<string>, descs: seq<string>): (ls: seq<string>)
    requires |keys| == |descs|
    ensures |ls| == |keys|
    ensures forall i :: 0 <= i < |ls| ==> ls[i] == FieldLine(keys[i], descs[i])
  {
    seq(|keys|, i requires 0 <= i < |keys| => FieldLine(keys[i], descs[i]))
  }

  /** The prompt around a block of field lines and the document text. */
  function Render(tpl: PromptTemplate, block: string, text: string): string {
    tpl.head + block + tpl.instructions + OpenFence + text + CloseFence + tpl.closing
  }

  /** The field lines of the table, joined by newlines. */
  function FieldBlock(): string {
    JoinLines(FieldLines(FieldNames, FieldDescriptions))
  }

  /** `build_extraction_prompt`: the field lines joined by newlines, then
      the document text. */
  function BuildPrompt(text: string): string {
    Render(ExtractionTemplate, FieldBlock(), text)
  }

  /** The prompt sent to the model: after the heading comes the field block,
      which splits at its newlines into one line per field of the table; the
      document text follows verbatim between the two fences. */
  lemma {:induction false} BuildPromptLayout(text: string)
    ensures |BuildPrompt(text)| == |ExtractionTemplate.head| + |FieldBlock()| + |ExtractionTemplate.instructions|
                                  + |OpenFence| + |text| + |CloseFence| + |ExtractionTemplate.closing|
    ensures var r := BuildPrompt(text);
            var h := |ExtractionTemplate.head|;
            var i := h + |FieldBlock()| + |ExtractionTemplate.instructions| + |OpenFence|;
            && r[h..h + |FieldBlock()|] == FieldBlock()
            && r[i - |OpenFence|..i] == OpenFence
            && r[i..i + |text|] == text
            && r[i + |text|..i + |text| + |CloseFence|] == CloseFence
    ensures SplitLines(FieldBlock()) == FieldLines(FieldNames, FieldDescriptions)
  {
    RenderEmbedsText(ExtractionTemplate, FieldBlock(), text);
    FieldTableOneLine();
    FieldBlockLines(FieldNames, FieldDescriptions);
  }

  /** The block sits right after the heading, and the document text
      verbatim between the two fences. */
  lemma {:induction false} RenderEmbedsText(tpl: PromptTemplate, block: string, text: string)
    ensures var r := Render(tpl, block, text);
            var i := |tpl.head| + |block| + |tpl.instructions| + |OpenFence|;
            && r[|tpl.head|..|tpl.head| + |block|] == block
            && r[i - |OpenFence|..i] == OpenFence
            && r[i..i + |text|] == text
            && r[i + |text|..i + |text| + |CloseFence|] == CloseFence
  {
    PiecesOfSeven(tpl.head, block, tpl.instructions, OpenFence, text, CloseFence, tpl.closing);
  }

  /** Where the second, fourth, fifth and sixth of seven concatenated
      strings sit in the whole. It is stated over plain strings, not over the
      prompt's own parts, so that its proof does not unfold the long field
      table. */
  lemma {:induction false} PiecesOfSeven(p0: string, p1: string, p2: string, p3: string, p4: string, p5: string, p6: string)
    ensures var r := p0 + p1 + p2 + p3 + p4 + p5 + p6;
            var i := |p0| + |p1| + |p2| + |p3|;
            && r[|p0|..|p0| + |p1|] == p1
            && r[i - |p3|..i] == p3
            && r[i..i + |p4|] == p4
            && r[i + |p4|..i + |p4| + |p5|] == p5
  {
    var r := p0 + p1 + p2 + p3 + p4 + p5 + p6;
    SliceOfAppend3(p0, p1, p2 + p3 + p4 + p5 + p6);
    assert r == p0 + p1 + (p2 + p3 + p4 + p5 + p6);
    SliceOfAppend3(p0 + p1 + p2, p3, p4 + p5 + p6);
    assert r == p0 + p1 + p2 + p3 + (p4 + p5 + p6);
    SliceOfAppend3(p0 + p1 + p2 + p3, p4, p5 + p6);
    assert r == p0 + p1 + p2 + p3 + p4 + (p5 + p6);
    SliceOfAppend3(p0 + p1 + p2 + p3 + p4, p5, p6);
  }

  /** The middle of a three-part concatenation. */
  lemma {:induction false} SliceOfAppend3(a: string, b: string, c: string)
    ensures (a + b + c)[|a|..|a| + |b|] == b
  {
    assert forall k :: 0 <= k < |b| ==> (a + b + c)[|a| + k] == b[k];
  }

  /** No key or description of the field table holds a newline. Each
      description gets a lemma of its own below: proving all eight in one
      place is too costly for the verifier. */
  lemma {:induction false} FieldTableOneLine()
    ensures forall i :: 0 <= i < |FieldNames| ==> '\n' !in FieldNames[i] && '\n' !in FieldDescriptions[i]
  {
    DescriptionOneLine0(); DescriptionOneLine1(); DescriptionOneLine2(); DescriptionOneLine3();
    DescriptionOneLine4(); DescriptionOneLine5(); DescriptionOneLine6(); DescriptionOneLine7();
  }

  lemma {:induction false} DescriptionOneLine0()
    ensures '\n' !in FieldDescriptions[0]
  {
  }

  lemma {:induction false} DescriptionOneLine1()
    ensures '\n' !in FieldDescriptions[1]
  {
  }

  lemma {:induction false} DescriptionOneLine2()
    ensures '\n' !in FieldDescriptions[2]
  {
  }

  lemma {:induction false} DescriptionOneLine3()
    ensures '\n' !in FieldDescriptions[3]
  {
  }

  lemma {:induction false} DescriptionOneLine4()
    ensures '\n' !in FieldDescriptions[4]
  {
  }

  lemma {:induction false} DescriptionOneLine5()
    ensures '\n' !in FieldDescriptions[5]
  {
  }

  lemma {:induction false} DescriptionOneLine6()
    ensures '\n' !in FieldDescriptions[6]
  {
  }

  lemma {:induction false} DescriptionOneLine7()
    ensures '\n' !in FieldDescriptions[7]
  {
  }

  /** The block holds one line per field, in order: when no key or
      description holds a newline, splitting the block at its newlines gives
      back exactly the field lines. */
  lemma {:induction false} FieldBlockLines(keys: seq<string>, descs: seq<string>)
    requires 0 < |keys| == |descs|
    requires forall i :: 0 <= i < |keys| ==> '\n' !in keys[i] && '\n' !in descs[i]
    ensures SplitLines(JoinLines(FieldLines(keys, descs))) == FieldLines(keys, descs)
  {
    var ls := FieldLines(keys, descs);
    forall i | 0 <= i < |ls|
      ensures '\n' !in ls[i]
    {
      FieldLineOneLine(keys[i], descs[i]);
    }
    SplitJoinLines(ls);
  }

  lemma {:induction false} FieldLineOneLine(key: string, desc: string)
    requires '\n' !in key && '\n' !in desc
    ensures '\n' !in FieldLine(key, desc)
  {
    var h := Humanize(key);
    assert '\n' !in h;
    assert FieldLine(key, desc) == "- " + h + ": " + desc;
  }
}
