/** Event templates and the rules by which they select events, as the engine
    tests pin them down (test/engine-test.py:267-505, 628-840): a field left
    empty imposes nothing, a leading `!` negates, a trailing `*` turns an
    exact match into a prefix match, interpretations and manifestations also
    match every descendant type of the ontology, and the subject text and
    storage fields take their value literally. A template is itself an
    `Event`, as in the repository. */
module Templates {
  import opened Datamodel
  import Glob

  /** A taxonomy of interpretation and manifestation types: each type mapped
      to the set of all its descendants. */
  type Ontology = map<string, set<string>>

  /** `value` is the type `symbol` or one of its descendants. */
  predicate IsA(ont: Ontology, value: string, symbol: string)
  {
    value == symbol || (symbol in ont && value in ont[symbol])
  }

  /** How a template field reads its value: `Symbol` fields (interpretation,
      manifestation) take `!` and `*` and match descendant types; `Plain`
      fields take `!` and `*`; `Literal` fields (subject text and storage)
      take the whole value as content. */
  datatype FieldKind = Symbol | Plain | Literal

  /** A parsed template field. */
  datatype Filter = NoFilter | Filter(negated: bool, wildcard: bool, value: string)

  function ParseFilter(kind: FieldKind, raw: string): (f: Filter)
    ensures raw == "" <==> f.NoFilter?
    ensures kind == Literal && raw != "" ==> f == Filter(false, false, raw)
    ensures f.Filter? && kind != Literal ==>
      (if f.negated then "!" else "") + f.value + (if f.wildcard then "*" else "") == raw
  {
    if raw == "" then NoFilter
    else if kind == Literal then Filter(false, false, raw)
    else
      var negated := raw[0] == '!';
      var rest := if negated then raw[1..] else raw;
      var wildcard := |rest| > 0 && rest[|rest| - 1] == '*';
      var value := if wildcard then rest[..|rest| - 1] else rest;
      assert wildcard ==> value + "*" == rest;
      assert negated ==> "!" + rest == raw;
      Filter(negated, wildcard, value)
  }

  /** The condition a filter puts on one stored value. */
  predicate FilterMatches(ont: Ontology, kind: FieldKind, f: Filter, value: string)
  {
    match f
    case NoFilter => true
    case Filter(negated, wildcard, v) =>
      var positive :=
        if wildcard then v <= value
        else if kind == Symbol then IsA(ont, value, v)
        else value == v;
      if negated then !positive else positive
  }

  predicate FieldMatches(ont: Ontology, kind: FieldKind, raw: string, value: string)
  {
    FilterMatches(ont, kind, ParseFilter(kind, raw), value)
  }

  predicate SubjectMatches(ont: Ontology, t: Subject, s: Subject)
  {
    && FieldMatches(ont, Plain, t.uri, s.uri)
    && FieldMatches(ont, Plain, t.currentUri, s.currentUri)
    && FieldMatches(ont, Symbol, t.interpretation, s.interpretation)
    && FieldMatches(ont, Symbol, t.manifestation, s.manifestation)
    && FieldMatches(ont, Plain, t.origin, s.origin)
    && FieldMatches(ont, Plain, t.mimetype, s.mimetype)
    && FieldMatches(ont, Literal, t.text, s.text)
    && FieldMatches(ont, Literal, t.storage, s.storage)
  }

  predicate EventFieldsMatch(ont: Ontology, t: Event, e: Event)
  {
    && FieldMatches(ont, Symbol, t.interpretation, e.interpretation)
    && FieldMatches(ont, Symbol, t.manifestation, e.manifestation)
    && FieldMatches(ont, Plain, t.actor, e.actor)
    && FieldMatches(ont, Plain, t.origin, e.origin)
  }

  /** One template read against one subject row of an event: the event
      fields hold and that single subject meets every subject template
      (test/engine-test.py:475-505: no subject has two interpretations at
      once). */
  predicate TemplateMatchesRow(ont: Ontology, t: Event, e: Event, j: int)
    requires 0 <= j < |e.subjects|
  {
    && EventFieldsMatch(ont, t, e)
    && forall i :: 0 <= i < |t.subjects| ==> SubjectMatches(ont, t.subjects[i], e.subjects[j])
  }

  /** One template matches an event when it matches one of its rows. */
  predicate TemplateMatches(ont: Ontology, t: Event, e: Event)
  {
    exists j :: 0 <= j < |e.subjects| && TemplateMatchesRow(ont, t, e, j)
  }

  /** A list of templates selects the rows any one of them matches; the
      empty list selects every row. */
  predicate AnyTemplateMatchesRow(ont: Ontology, templates: seq<Event>, e: Event, j: int)
    requires 0 <= j < |e.subjects|
  {
    templates == [] || exists i :: 0 <= i < |templates| && TemplateMatchesRow(ont, templates[i], e, j)
  }

  /** An inclusive time range; an end of 0 leaves it open. */
  datatype TimeRange = TimeRange(start: int, end: int)

  predicate InTimeRange(r: TimeRange, t: int)
  {
    r.start <= t && (r.end == 0 || t <= r.end)
  }

  datatype StorageState = NotAvailable | Available | Any

  /** A subject whose storage is unknown (empty) passes every storage filter;
      `mounted` is the set of storage media currently available. */
  predicate StorageMatches(state: StorageState, mounted: set<string>, s: Subject)
  {
    state == Any || s.storage == "" || (s.storage in mounted <==> state == Available)
  }

  /** The filtering part of `find_eventids`. */
  datatype Query = Query(range: TimeRange, templates: seq<Event>, storage: StorageState)

  /** An event is selected when its time is in range and one of its subject
      rows passes both the templates and the storage filter. */
  predicate QueryMatches(ont: Ontology, mounted: set<string>, q: Query, e: Event)
  {
    && InTimeRange(q.range, TimeOf(e))
    && exists j :: 0 <= j < |e.subjects|
         && AnyTemplateMatchesRow(ont, q.templates, e, j)
         && StorageMatches(q.storage, mounted, e.subjects[j])
  }

  // ---------------------------------------------------------------------
  // Properties

  /** `!v` selects exactly the values `v` does not, on every field that takes
      negation, with or without a trailing `*`. */
  lemma NegationIsComplement(ont: Ontology, kind: FieldKind, v: string, value: string)
    requires kind != Literal && v != "" && v[0] != '!'
    ensures FieldMatches(ont, kind, "!" + v, value) <==> !FieldMatches(ont, kind, v, value)
  {
    assert ("!" + v)[1..] == v;
  }

  /** On the subject text and storage fields a leading `!` is content: the
      filter matches only the value spelled with the `!`. */
  lemma LiteralBang(ont: Ontology, v: string, value: string)
    ensures FieldMatches(ont, Literal, "!" + v, value) <==> value == "!" + v
  {
  }

  /** A trailing `*` selects the values starting with what precedes it. */
  lemma WildcardIsPrefix(ont: Ontology, kind: FieldKind, p: string, value: string)
    requires kind != Literal && (p == "" || p[0] != '!')
    ensures FieldMatches(ont, kind, p + "*", value) <==> p <= value
  {
    ParseWildcard(kind, p);
  }

  /** The engine evaluates a trailing `*` through the range rewrite of
      `optimize_glob`, and selects the same values. */
  lemma WildcardIsRangeQuery(ont: Ontology, kind: FieldKind, p: string, value: string)
    requires kind != Literal && (p == "" || p[0] != '!')
    ensures FieldMatches(ont, kind, p + "*", value)
      <==> Glob.InRange(Glob.OptimizeGlob(Glob.Codes(p)), Glob.Codes(value))
  {
    WildcardIsPrefix(ont, kind, p, value);
    Glob.OptimizeGlobExact(Glob.Codes(p), Glob.Codes(value));
    CodesPrefix(p, value);
  }

  lemma ParseWildcard(kind: FieldKind, p: string)
    requires kind != Literal && (p == "" || p[0] != '!')
    ensures ParseFilter(kind, p + "*") == Filter(false, true, p)
  {
    var raw := p + "*";
    assert raw[0] != '!';
    assert raw[..|raw| - 1] == p;
  }

  lemma CodesPrefix(p: string, value: string)
    ensures Glob.HasPrefix(Glob.Codes(value), Glob.Codes(p)) <==> p <= value
  {
    var cp, cv := Glob.Codes(p), Glob.Codes(value);
    if p <= value {
      assert cv[..|cp|] == cp;
    }
    if Glob.HasPrefix(cv, cp) {
      forall i | 0 <= i < |p| ensures p[i] == value[i] {
        assert cv[..|cp|][i] == cp[i];
      }
    }
  }

  /** A template without subject templates tests the event fields only, on
      any event that has a subject. */
  lemma FieldsOnly(ont: Ontology, t: Event, e: Event)
    requires t.subjects == [] && e.subjects != []
    ensures TemplateMatches(ont, t, e) <==>
      && FieldMatches(ont, Symbol, t.interpretation, e.interpretation)
      && FieldMatches(ont, Symbol, t.manifestation, e.manifestation)
      && FieldMatches(ont, Plain, t.actor, e.actor)
      && FieldMatches(ont, Plain, t.origin, e.origin)
  {
    assert TemplateMatchesRow(ont, t, e, 0) <==> EventFieldsMatch(ont, t, e);
  }

  /** A template that sets one negatable event field to `!v` selects exactly
      the events that the same template with `v` leaves out. */
  lemma EventNegationIsComplement(ont: Ontology, v: string, e: Event)
    requires v != "" && v[0] != '!' && e.subjects != []
    ensures TemplateMatches(ont, BlankEvent.(interpretation := "!" + v), e)
      <==> !TemplateMatches(ont, BlankEvent.(interpretation := v), e)
    ensures TemplateMatches(ont, BlankEvent.(manifestation := "!" + v), e)
      <==> !TemplateMatches(ont, BlankEvent.(manifestation := v), e)
    ensures TemplateMatches(ont, BlankEvent.(actor := "!" + v), e)
      <==> !TemplateMatches(ont, BlankEvent.(actor := v), e)
    ensures TemplateMatches(ont, BlankEvent.(origin := "!" + v), e)
      <==> !TemplateMatches(ont, BlankEvent.(origin := v), e)
  {
    FieldsOnly(ont, BlankEvent.(interpretation := "!" + v), e);
    FieldsOnly(ont, BlankEvent.(interpretation := v), e);
    FieldsOnly(ont, BlankEvent.(manifestation := "!" + v), e);
    FieldsOnly(ont, BlankEvent.(manifestation := v), e);
    FieldsOnly(ont, BlankEvent.(actor := "!" + v), e);
    FieldsOnly(ont, BlankEvent.(actor := v), e);
    FieldsOnly(ont, BlankEvent.(origin := "!" + v), e);
    FieldsOnly(ont, BlankEvent.(origin := v), e);
    NegationIsComplement(ont, Symbol, v, e.interpretation);
    NegationIsComplement(ont, Symbol, v, e.manifestation);
    NegationIsComplement(ont, Plain, v, e.actor);
    NegationIsComplement(ont, Plain, v, e.origin);
  }

  // ---------------------------------------------------------------------
  // The ontology fragment the tests use (test/engine-test.py:628-745)

  const Nfo: string := "http://www.semanticdesktop.org/ontologies/2007/03/22/nfo#"
  const Media: string := Nfo + "Media"
  const Audio: string := Nfo + "Audio"
  const Video: string := Nfo + "Video"
  const Document: string := Nfo + "Document"

  /** Audio and video are kinds of media; a document is not. */
  const MediaOntology: Ontology := map[Media := {Audio, Video}]

  /** `!AUDIO` rejects only audio, `!MEDIA` rejects media with its
      descendants, and a positive `MEDIA` accepts audio. */
  lemma OntologyExamples()
    ensures !FieldMatches(MediaOntology, Symbol, "!" + Audio, Audio)
    ensures FieldMatches(MediaOntology, Symbol, "!" + Audio, Media)
    ensures FieldMatches(MediaOntology, Symbol, "!" + Audio, Video)
    ensures FieldMatches(MediaOntology, Symbol, "!" + Audio, Document)
    ensures !FieldMatches(MediaOntology, Symbol, "!" + Media, Media)
    ensures !FieldMatches(MediaOntology, Symbol, "!" + Media, Audio)
    ensures !FieldMatches(MediaOntology, Symbol, "!" + Media, Video)
    ensures FieldMatches(MediaOntology, Symbol, "!" + Media, Document)
    ensures FieldMatches(MediaOntology, Symbol, Media, Audio)
  {
    assert ("!" + Audio)[1..] == Audio;
    assert ("!" + Media)[1..] == Media;
    assert Audio[|Audio| - 1] == 'o' && Media[|Media| - 1] == 'a';
    var n := |Nfo|;
    assert Audio[n] == 'A' && Media[n] == 'M' && Video[n] == 'V' && Document[n] == 'D';
  }
}
