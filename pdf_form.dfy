/**
 * A fillable PDF seen through pdfrw, reduced to what the program touches: a
 * document is a sequence of pages, each page holds its annotations, and an
 * annotation has an optional raw field name `T`, an optional value `V` and
 * other entries this program never looks at.
 */
module PdfForm {
  import opened Wrappers

  datatype Annotation = Annotation(name: Option<string>, value: Option<string>, others: map<string, string>)

  /** `page.Annots` (an absent array is the empty one) and the page's other entries. */
  datatype Page = Page(annots: seq<Annotation>, others: map<string, string>)

  type Document = seq<Page>

  /** Field name to value; `None` is Python's `None`. */
  type FieldData = map<string, Option<string>>

  /**
   * Python's `raw[1:-1]`: drops the string delimiters around a raw PDF name.
   * Names of fewer than three characters give the empty key.
   */
  function FieldKey(raw: string): (k: string)
    ensures |raw| >= 2 ==> raw == raw[..1] + k + raw[|raw| - 1..]
    ensures |raw| <= 2 <==> k == ""
  {
    if |raw| <= 2 then "" else raw[1..|raw| - 1]
  }

  /** Wrapping a key in parentheses, as a PDF literal string does. */
  lemma FieldKeyOfLiteral(k: string)
    ensures FieldKey("(" + k + ")") == k
  {
    var raw := "(" + k + ")";
    assert raw[1..|raw| - 1] == k;
  }

  /** `if field_name:`: `T` present and not the empty string. */
  predicate Named(a: Annotation) {
    a.name.Some? && a.name.value != ""
  }

  function KeyOf(a: Annotation): string
    requires Named(a)
  {
    FieldKey(a.name.value)
  }

  /** The keys the annotations `annots` contribute, in loop order. */
  function AnnotKeys(annots: seq<Annotation>): set<string>
  {
    if annots == [] then {}
    else
      var last := annots[|annots| - 1];
      AnnotKeys(annots[..|annots| - 1]) + (if Named(last) then {KeyOf(last)} else {})
  }

  /** The keys `get_pdf_fields` collects from the pages `doc`. */
  function FieldNames(doc: Document): set<string>
  {
    if doc == [] then {} else FieldNames(doc[..|doc| - 1]) + AnnotKeys(doc[|doc| - 1].annots)
  }

  /** A key is declared when some named annotation on some page yields it. */
  ghost predicate Declares(doc: Document, k: string) {
    exists p, j :: 0 <= p < |doc| && 0 <= j < |doc[p].annots|
                   && Named(doc[p].annots[j]) && KeyOf(doc[p].annots[j]) == k
  }

  lemma {:induction false} AnnotKeysSpec(annots: seq<Annotation>, k: string)
    ensures k in AnnotKeys(annots) <==>
            exists j :: 0 <= j < |annots| && Named(annots[j]) && KeyOf(annots[j]) == k
  {
    if annots != [] {
      var n := |annots| - 1;
      var init := annots[..n];
      AnnotKeysSpec(init, k);
      if k in AnnotKeys(annots) {
        if k in AnnotKeys(init) {
          var j :| 0 <= j < |init| && Named(init[j]) && KeyOf(init[j]) == k;
          assert annots[j] == init[j];
        } else {
          assert Named(annots[n]) && KeyOf(annots[n]) == k;
        }
      }
      if exists j :: 0 <= j < |annots| && Named(annots[j]) && KeyOf(annots[j]) == k {
        var j :| 0 <= j < |annots| && Named(annots[j]) && KeyOf(annots[j]) == k;
        if j < n {
          assert init[j] == annots[j];
        }
      }
    }
  }

  /** The extracted key set is exactly the keys of the named annotations. */
  lemma {:induction false} FieldNamesSpec(doc: Document, k: string)
    ensures k in FieldNames(doc) <==> Declares(doc, k)
  {
    if doc != [] {
      var init, last := doc[..|doc| - 1], doc[|doc| - 1];
      FieldNamesSpec(init, k);
      AnnotKeysSpec(last.annots, k);
      if Declares(init, k) {
        var p, j :| 0 <= p < |init| && 0 <= j < |init[p].annots|
                    && Named(init[p].annots[j]) && KeyOf(init[p].annots[j]) == k;
        assert doc[p] == init[p];
      }
      if exists j :: 0 <= j < |last.annots| && Named(last.annots[j]) && KeyOf(last.annots[j]) == k {
        var j :| 0 <= j < |last.annots| && Named(last.annots[j]) && KeyOf(last.annots[j]) == k;
        assert Declares(doc, k) by { assert doc[|doc| - 1] == last; }
      }
      if Declares(doc, k) {
        var p, j :| 0 <= p < |doc| && 0 <= j < |doc[p].annots|
                    && Named(doc[p].annots[j]) && KeyOf(doc[p].annots[j]) == k;
        if p < |init| { assert init[p] == doc[p]; }
      }
    }
  }

  /** The number of named annotations. */
  function NamedCount(doc: Document): nat
  {
    if doc == [] then 0 else NamedCount(doc[..|doc| - 1]) + NamedIn(doc[|doc| - 1].annots)
  }

  function NamedIn(annots: seq<Annotation>): nat
  {
    if annots == [] then 0
    else NamedIn(annots[..|annots| - 1]) + (if Named(annots[|annots| - 1]) then 1 else 0)
  }

  lemma {:induction false} AnnotKeysBound(annots: seq<Annotation>)
    ensures |AnnotKeys(annots)| <= NamedIn(annots)
  {
    if annots != [] {
      AnnotKeysBound(annots[..|annots| - 1]);
    }
  }

  /** Repeated names collapse: there are never more keys than named annotations. */
  lemma {:induction false} FieldNamesBound(doc: Document)
    ensures |FieldNames(doc)| <= NamedCount(doc)
  {
    if doc != [] {
      FieldNamesBound(doc[..|doc| - 1]);
      AnnotKeysBound(doc[|doc| - 1].annots);
      var a, b := FieldNames(doc[..|doc| - 1]), AnnotKeys(doc[|doc| - 1].annots);
      assert |a + b| <= |a| + |b| by {
        assert |a + b| == |a| + |b - a|;
        assert |b - a| <= |b|;
      }
    }
  }

  /** The dictionary `get_pdf_fields` returns: every key mapped to `None`. */
  function Extracted(doc: Document): (fields: FieldData)
    ensures forall k :: k in fields <==> k in FieldNames(doc)
    ensures forall k :: k in fields ==> fields[k] == None
  {
    map k | k in FieldNames(doc) :: None
  }

  /** `get_pdf_fields`: the nested loop over pages and annotations filling `fields`. */
  method GetPdfFields(template: Document) returns (fields: FieldData)
    ensures fields.Keys == FieldNames(template)
    ensures forall k :: k in fields ==> fields[k] == None
    ensures fields == Extracted(template)
  {
    fields := map[];
    var p := 0;
    while p < |template|
      invariant 0 <= p <= |template|
      invariant fields.Keys == FieldNames(template[..p])
      invariant forall k :: k in fields ==> fields[k] == None
    {
      var annotations := template[p].annots;
      var j := 0;
      while j < |annotations|
        invariant 0 <= j <= |annotations|
        invariant fields.Keys == FieldNames(template[..p]) + AnnotKeys(annotations[..j])
        invariant forall k :: k in fields ==> fields[k] == None
      {
        var fieldName := annotations[j].name;
        if fieldName.Some? && fieldName.value != "" {
          fields := fields[FieldKey(fieldName.value) := None];
        }
        assert annotations[..j + 1][..j] == annotations[..j];
        j := j + 1;
      }
      assert annotations[..j] == annotations;
      assert template[..p + 1][..p] == template[..p];
      p := p + 1;
    }
    assert template[..p] == template;
  }

  /** `'{}'.format(value)`: Python prints `None` as the text "None". */
  function Format(v: Option<string>): (s: string)
    ensures v.Some? ==> s == v.value
    ensures v.None? ==> s == "None"
  {
    match v
    case None => "None"
    case Some(s) => s
  }

  /** `annotation.update(PdfDict(V=...))` when the annotation's key is in `data`. */
  function FillAnnotation(data: FieldData, a: Annotation): (b: Annotation)
    ensures b.name == a.name && b.others == a.others
  {
    if Named(a) && KeyOf(a) in data then a.(value := Some(Format(data[KeyOf(a)]))) else a
  }

  function FillPage(data: FieldData, page: Page): (q: Page)
    ensures |q.annots| == |page.annots| && q.others == page.others
  {
    page.(annots := seq(|page.annots|, j requires 0 <= j < |page.annots| => FillAnnotation(data, page.annots[j])))
  }

  /** The pages `generate_pdf` hands to the writer. */
  function Filled(data: FieldData, doc: Document): (out: Document)
    ensures |out| == |doc|
  {
    seq(|doc|, p requires 0 <= p < |doc| => FillPage(data, doc[p]))
  }

  /**
   * `generate_pdf`: updates each annotation of each page of the template in
   * place, then appends the page to the writer. File output is left out.
   */
  method GeneratePdf(fieldData: FieldData, template: Document) returns (written: Document)
    ensures written == Filled(fieldData, template)
  {
    written := [];
    var p := 0;
    while p < |template|
      invariant 0 <= p <= |template|
      invariant |written| == p
      invariant forall q :: 0 <= q < p ==> written[q] == FillPage(fieldData, template[q])
    {
      var page := template[p];
      var annotations := page.annots;
      var j := 0;
      while j < |annotations|
        invariant 0 <= j <= |annotations| == |page.annots|
        invariant forall k :: 0 <= k < j ==> annotations[k] == FillAnnotation(fieldData, page.annots[k])
        invariant forall k :: j <= k < |annotations| ==> annotations[k] == page.annots[k]
      {
        var fieldName := annotations[j].name;
        if fieldName.Some? && fieldName.value != "" {
          var fieldNameStr := FieldKey(fieldName.value);
          if fieldNameStr in fieldData {
            annotations := annotations[j := annotations[j].(value := Some(Format(fieldData[fieldNameStr])))];
          }
        }
        j := j + 1;
      }
      written := written + [page.(annots := annotations)];
      p := p + 1;
    }
  }

  /**
   * The fill, position by position: pages and annotations stay where they are,
   * an annotation whose key is in `data` gets `V` set to the text of the
   * mapped value, and every other annotation is returned untouched.
   */
  lemma FillAt(data: FieldData, doc: Document, p: int, j: int)
    requires 0 <= p < |doc| && 0 <= j < |doc[p].annots|
    ensures |Filled(data, doc)| == |doc|
    ensures |Filled(data, doc)[p].annots| == |doc[p].annots|
    ensures Filled(data, doc)[p].others == doc[p].others
    ensures var a, b := doc[p].annots[j], Filled(data, doc)[p].annots[j];
            && b.name == a.name && b.others == a.others
            && (Named(a) && KeyOf(a) in data ==> b.value == Some(Format(data[KeyOf(a)])))
            && (!Named(a) || KeyOf(a) !in data ==> b == a)
  {
  }

  /** With nothing to fill, the document comes out as it went in. */
  lemma FillNothing(doc: Document)
    ensures Filled(map[], doc) == doc
  {
    forall p | 0 <= p < |doc| ensures Filled(map[], doc)[p] == doc[p] {
      assert Filled(map[], doc)[p].annots == doc[p].annots;
    }
  }

  /** Filling keeps every annotation's name, so it declares the same keys. */
  lemma FillDeclares(data: FieldData, doc: Document, k: string)
    ensures Declares(Filled(data, doc), k) <==> Declares(doc, k)
  {
    var out := Filled(data, doc);
    if Declares(doc, k) {
      var p, j :| 0 <= p < |doc| && 0 <= j < |doc[p].annots|
                  && Named(doc[p].annots[j]) && KeyOf(doc[p].annots[j]) == k;
      FillAt(data, doc, p, j);
      assert Named(out[p].annots[j]) && KeyOf(out[p].annots[j]) == k;
    }
    if Declares(out, k) {
      var p, j :| 0 <= p < |out| && 0 <= j < |out[p].annots|
                  && Named(out[p].annots[j]) && KeyOf(out[p].annots[j]) == k;
      FillAt(data, doc, p, j);
      assert Named(doc[p].annots[j]) && KeyOf(doc[p].annots[j]) == k;
    }
  }

  /** Filling keeps every field name, so the same fields are found afterwards. */
  lemma FillKeepsFieldNames(data: FieldData, doc: Document)
    ensures FieldNames(Filled(data, doc)) == FieldNames(doc)
  {
    forall k ensures k in FieldNames(Filled(data, doc)) <==> k in FieldNames(doc) {
      FieldNamesSpec(Filled(data, doc), k);
      FieldNamesSpec(doc, k);
      FillDeclares(data, doc, k);
    }
  }

  /** Filling twice with the same data is filling once. */
  lemma FillIdempotent(data: FieldData, doc: Document)
    ensures Filled(data, Filled(data, doc)) == Filled(data, doc)
  {
    var once := Filled(data, doc);
    forall p | 0 <= p < |doc| ensures Filled(data, once)[p] == once[p] {
      assert Filled(data, once)[p].annots == once[p].annots;
    }
  }

  /**
   * What `create_contracts_from_excel` produces: the template filled with its
   * own extracted fields, so every named annotation reads "None" and every
   * unnamed one is untouched.
   */
  lemma FillFromExtracted(doc: Document, p: int, j: int)
    requires 0 <= p < |doc| && 0 <= j < |doc[p].annots|
    ensures var a, b := doc[p].annots[j], Filled(Extracted(doc), doc)[p].annots[j];
            && b.name == a.name && b.others == a.others
            && (Named(a) ==> b.value == Some("None"))
            && (!Named(a) ==> b == a)
  {
    var a := doc[p].annots[j];
    if Named(a) {
      FieldNamesSpec(doc, KeyOf(a));
    }
  }
}
